/** The JSON that Go's `encoding/json` `Marshal` writes for values made of
    strings, booleans, slices and structs: compact output (no insignificant
    white space), object members in struct-field order, and strings escaped
    with HTML escaping switched on, as `Marshal` does. `Decode` reads that
    compact form back; it is the partner that shows the encoding loses
    nothing. */
module Json {
  import opened Text
  import opened Wrappers
  import opened Seqs
  import Hex

  datatype Value =
    | JString(str: Bytes)
    | JBool(b: bool)
    | JArray(items: seq<Value>)
    | JObject(members: seq<Member>)

  datatype Member = Member(key: Bytes, value: Value)

  const Quote: uint8 := 34
  const Backslash: uint8 := 92
  const Colon: uint8 := 58
  const Comma: uint8 := 44
  const LeftBracket: uint8 := 91
  const RightBracket: uint8 := 93
  const LeftBrace: uint8 := 123
  const RightBrace: uint8 := 125

  /** `true` and `false`. */
  const TrueText: Bytes := [116, 114, 117, 101]
  const FalseText: Bytes := [102, 97, 108, 115, 101]

  // ---- strings ----

  /** Bytes that `Marshal` copies into a string literal unchanged: every byte
      from 0x20 upwards (DEL and the bytes of multi-byte sequences included)
      other than `"`, `\`, `<`, `>` and `&`. */
  predicate IsPlain(c: uint8) {
    c >= 32 && c != Quote && c != Backslash && c != 60 && c != 62 && c != 38
  }

  /** The text `Marshal` writes for one byte inside a string literal. */
  function EscapeByte(c: uint8): (r: Bytes)
    ensures IsPlain(c) <==> r == [c]
    ensures !IsPlain(c) ==> |r| >= 2 && r[0] == Backslash
  {
    if c == Quote || c == Backslash then [Backslash, c]
    else if c == 8 then [Backslash, 98]
    else if c == 12 then [Backslash, 102]
    else if c == 10 then [Backslash, 110]
    else if c == 13 then [Backslash, 114]
    else if c == 9 then [Backslash, 116]
    else if !IsPlain(c) then [Backslash, 117, 48, 48, Hex.Digit(c / 16), Hex.Digit(c % 16)]
    else [c]
  }

  function Escape(s: Bytes): (r: Bytes)
    ensures |r| >= |s|
  {
    if |s| == 0 then [] else EscapeByte(s[0]) + Escape(s[1..])
  }

  /** A string literal: the escaped bytes between double quotes. */
  function Quoted(s: Bytes): Bytes {
    [Quote] + Escape(s) + [Quote]
  }

  /** A hexadecimal digit of a `\u` escape, either case. */
  function HexValue(c: uint8): (v: Option<int>)
    ensures v.Some? ==> 0 <= v.value < 16
  {
    if 48 <= c <= 57 then Some(c - 48)
    else if 97 <= c <= 102 then Some(c - 87)
    else if 65 <= c <= 70 then Some(c - 55)
    else None
  }

  /** The byte an escape sequence at the start of `s` stands for, and the
      length of the sequence. A `\u` escape must name an ASCII code point. */
  function Unescape(s: Bytes): (r: Option<(uint8, nat)>)
    ensures r.Some? ==> 2 <= r.value.1 <= |s|
  {
    if |s| < 2 || s[0] != Backslash then None
    else if s[1] == Quote || s[1] == Backslash || s[1] == 47 then Some((s[1], 2))
    else if s[1] == 98 then Some((8, 2))
    else if s[1] == 102 then Some((12, 2))
    else if s[1] == 110 then Some((10, 2))
    else if s[1] == 114 then Some((13, 2))
    else if s[1] == 116 then Some((9, 2))
    else if s[1] == 117 && |s| >= 6 then
      match (HexValue(s[2]), HexValue(s[3]), HexValue(s[4]), HexValue(s[5]))
      case (Some(d0), Some(d1), Some(d2), Some(d3)) =>
        var v := ((d0 * 16 + d1) * 16 + d2) * 16 + d3;
        if v < 128 then Some((v, 6)) else None
      case _ => None
    else None
  }

  /** `x` in front of the sequence a decoder read, keeping what follows. */
  function Cons<T>(x: T, r: Option<(seq<T>, Bytes)>): (c: Option<(seq<T>, Bytes)>)
    ensures c.Some? <==> r.Some?
    ensures c.Some? ==> c.value == ([x] + r.value.0, r.value.1)
  {
    match r
    case None => None
    case Some((xs, rest)) => Some(([x] + xs, rest))
  }

  /** The contents of a string literal whose opening quote has been read,
      and what follows its closing quote. */
  function DecodeString(s: Bytes): (r: Option<(Bytes, Bytes)>)
    ensures r.Some? ==> |r.value.1| < |s|
    decreases |s|
  {
    if |s| == 0 then None
    else if s[0] == Quote then Some(([], s[1..]))
    else if s[0] == Backslash then
      match Unescape(s)
      case None => None
      case Some((c, n)) => Cons(c, DecodeString(s[n..]))
    else if s[0] < 32 then None
    else
      Cons(s[0], DecodeString(s[1..]))
  }

  // ---- values ----

  function Encode(v: Value): Bytes
    decreases v, 1
  {
    match v
    case JString(s) => Quoted(s)
    case JBool(b) => if b then TrueText else FalseText
    case JArray(items) => [LeftBracket] + EncodeItems(items) + [RightBracket]
    case JObject(members) => [LeftBrace] + EncodeMembers(members) + [RightBrace]
  }

  /** Array elements separated by commas. */
  function EncodeItems(items: seq<Value>): Bytes
    decreases items, 0
  {
    if |items| == 0 then []
    else if |items| == 1 then Encode(items[0])
    else Encode(items[0]) + [Comma] + EncodeItems(items[1..])
  }

  /** One object member, `"key":value`. */
  function EncodeMember(m: Member): Bytes
    decreases m, 0
  {
    Quoted(m.key) + [Colon] + Encode(m.value)
  }

  /** Object members separated by commas. */
  function EncodeMembers(members: seq<Member>): Bytes
    decreases members, 0
  {
    if |members| == 0 then []
    else if |members| == 1 then EncodeMember(members[0])
    else EncodeMember(members[0]) + [Comma] + EncodeMembers(members[1..])
  }

  /** A decoded string, array or object as a value, keeping what follows. */
  function AsString(r: Option<(Bytes, Bytes)>): Option<(Value, Bytes)> {
    match r
    case None => None
    case Some((t, rest)) => Some((JString(t), rest))
  }

  function AsArray(r: Option<(seq<Value>, Bytes)>): Option<(Value, Bytes)> {
    match r
    case None => None
    case Some((items, rest)) => Some((JArray(items), rest))
  }

  function AsObject(r: Option<(seq<Member>, Bytes)>): Option<(Value, Bytes)> {
    match r
    case None => None
    case Some((members, rest)) => Some((JObject(members), rest))
  }

  /** One value at the start of `s`, and what follows it. */
  function DecodeValue(s: Bytes): (r: Option<(Value, Bytes)>)
    ensures r.Some? ==> |r.value.1| < |s|
    decreases |s|, 0
  {
    if |s| == 0 then None
    else if s[0] == Quote then
      AsString(DecodeString(s[1..]))
    else if s[0] == TrueText[0] then
      if HasPrefix(s, TrueText) then Some((JBool(true), s[4..])) else None
    else if s[0] == FalseText[0] then
      if HasPrefix(s, FalseText) then Some((JBool(false), s[5..])) else None
    else if s[0] == LeftBracket then
      if |s| >= 2 && s[1] == RightBracket then Some((JArray([]), s[2..]))
      else
        AsArray(DecodeItems(s[1..]))
    else if s[0] == LeftBrace then
      if |s| >= 2 && s[1] == RightBrace then Some((JObject([]), s[2..]))
      else
        AsObject(DecodeMembers(s[1..]))
    else None
  }

  /** The elements of a non-empty array whose `[` has been read, through
      its closing `]`. */
  function DecodeItems(s: Bytes): (r: Option<(seq<Value>, Bytes)>)
    ensures r.Some? ==> |r.value.1| < |s|
    decreases |s|, 1
  {
    match DecodeValue(s)
    case None => None
    case Some((v, rest)) =>
      if |rest| == 0 then None
      else if rest[0] == RightBracket then Some(([v], rest[1..]))
      else if rest[0] == Comma then
        Cons(v, DecodeItems(rest[1..]))
      else None
  }

  /** The members of a non-empty object whose `{` has been read, through
      its closing `}`. */
  function DecodeMembers(s: Bytes): (r: Option<(seq<Member>, Bytes)>)
    ensures r.Some? ==> |r.value.1| < |s|
    decreases |s|, 1
  {
    if |s| == 0 || s[0] != Quote then None
    else
      match DecodeString(s[1..])
      case None => None
      case Some((key, afterKey)) =>
        if |afterKey| == 0 || afterKey[0] != Colon then None
        else
          match DecodeValue(afterKey[1..])
          case None => None
          case Some((v, rest)) =>
            if |rest| == 0 then None
            else if rest[0] == RightBrace then Some(([Member(key, v)], rest[1..]))
            else if rest[0] == Comma then
              Cons(Member(key, v), DecodeMembers(rest[1..]))
            else None
  }

  /** A whole document: one value and nothing after it. */
  function Decode(s: Bytes): Option<Value> {
    match DecodeValue(s)
    case Some((v, rest)) => if rest == [] then Some(v) else None
    case None => None
  }

  // ---- round trip ----

  lemma HexDigitValue(v: int)
    requires 0 <= v < 16
    ensures HexValue(Hex.Digit(v)) == Some(v)
  {
  }

  /** One escaped byte decodes to itself, whatever follows. */
  lemma EscapeByteRoundTrip(c: uint8, t: Bytes)
    ensures DecodeString(EscapeByte(c) + t) == Cons(c, DecodeString(t))
  {
    var s := EscapeByte(c) + t;
    if IsPlain(c) {
      assert s[1..] == t;
    } else {
      var e := EscapeByte(c);
      if |e| == 6 {
        HexDigitValue(c / 16);
        HexDigitValue(c % 16);
        assert s[6..] == t;
        assert Unescape(s) == Some((c, 6));
      } else {
        assert s[2..] == t;
        assert Unescape(s) == Some((c, 2));
      }
    }
  }

  /** The escaped text of `s`, then a closing quote, decodes to `s`. */
  lemma {:induction false} StringRoundTrip(s: Bytes, rest: Bytes)
    ensures DecodeString(Escape(s) + [Quote] + rest) == Some((s, rest))
    decreases |s|
  {
    if |s| == 0 {
      assert Escape(s) + [Quote] + rest == [Quote] + rest;
      assert ([Quote] + rest)[1..] == rest;
    } else {
      var t := Escape(s[1..]) + [Quote] + rest;
      StringRoundTrip(s[1..], rest);
      EscapeByteRoundTrip(s[0], t);
      assert Escape(s) + [Quote] + rest == EscapeByte(s[0]) + t;
      assert [s[0]] + s[1..] == s;
    }
  }

  lemma QuotedRoundTrip(s: Bytes, rest: Bytes)
    ensures var t := Quoted(s) + rest;
      |t| > 0 && t[0] == Quote && DecodeString(t[1..]) == Some((s, rest))
  {
    StringRoundTrip(s, rest);
    assert (Quoted(s) + rest)[1..] == Escape(s) + [Quote] + rest;
  }

  /** `Decode` reads back exactly the value `Encode` wrote, whatever follows. */
  lemma {:induction false} ValueRoundTrip(v: Value, rest: Bytes)
    ensures DecodeValue(Encode(v) + rest) == Some((v, rest))
    decreases v, 1
  {
    match v
    case JString(str) =>
      QuotedRoundTrip(str, rest);
    case JBool(b) =>
      BoolRoundTrip(b, rest);
    case JArray(items) =>
      if |items| == 0 {
        EmptyArrayRoundTrip(rest);
      } else {
        ItemsRoundTrip(items, rest);
        ArrayRoundTrip(items, rest);
      }
    case JObject(members) =>
      if |members| == 0 {
        EmptyObjectRoundTrip(rest);
      } else {
        MembersRoundTrip(members, rest);
        ObjectRoundTrip(members, rest);
      }
  }

  lemma BoolRoundTrip(b: bool, rest: Bytes)
    ensures DecodeValue(Encode(JBool(b)) + rest) == Some((JBool(b), rest))
  {
    var s := Encode(JBool(b)) + rest;
    if b {
      assert s[..4] == TrueText;
      assert s[4..] == rest;
    } else {
      assert s[..5] == FalseText;
      assert s[5..] == rest;
    }
  }

  lemma EmptyArrayRoundTrip(rest: Bytes)
    ensures DecodeValue(Encode(JArray([])) + rest) == Some((JArray([]), rest))
  {
    var s := Encode(JArray([])) + rest;
    assert s == [LeftBracket, RightBracket] + rest;
    assert s[2..] == rest;
  }

  lemma EmptyObjectRoundTrip(rest: Bytes)
    ensures DecodeValue(Encode(JObject([])) + rest) == Some((JObject([]), rest))
  {
    var s := Encode(JObject([])) + rest;
    assert s == [LeftBrace, RightBrace] + rest;
    assert s[2..] == rest;
  }

  lemma DecodeArrayStep(s: Bytes)
    requires |s| >= 2 && s[0] == LeftBracket && s[1] != RightBracket
    ensures DecodeValue(s) == AsArray(DecodeItems(s[1..]))
  {
  }

  lemma ArrayRoundTrip(items: seq<Value>, rest: Bytes)
    requires |items| > 0
    requires DecodeItems(EncodeItems(items) + [RightBracket] + rest) == Some((items, rest))
    ensures DecodeValue(Encode(JArray(items)) + rest) == Some((JArray(items), rest))
  {
    EncodeItemsStart(items);
    var inner := EncodeItems(items) + [RightBracket] + rest;
    var s := [LeftBracket] + inner;
    assert Encode(JArray(items)) + rest == s;
    assert s[1..] == inner;
    DecodeArrayStep(s);
  }

  lemma DecodeObjectStep(s: Bytes)
    requires |s| >= 2 && s[0] == LeftBrace && s[1] != RightBrace
    ensures DecodeValue(s) == AsObject(DecodeMembers(s[1..]))
  {
  }

  lemma ObjectRoundTrip(members: seq<Member>, rest: Bytes)
    requires |members| > 0
    requires DecodeMembers(EncodeMembers(members) + [RightBrace] + rest) == Some((members, rest))
    ensures DecodeValue(Encode(JObject(members)) + rest) == Some((JObject(members), rest))
  {
    EncodeMembersStart(members);
    var inner := EncodeMembers(members) + [RightBrace] + rest;
    var s := [LeftBrace] + inner;
    assert Encode(JObject(members)) + rest == s;
    assert s[1..] == inner;
    DecodeObjectStep(s);
  }

  /** Every encoded value starts with one of `" t f [ {`. */
  lemma EncodeStart(v: Value)
    ensures |Encode(v)| > 0
    ensures Encode(v)[0] in {Quote, 116, 102, LeftBracket, LeftBrace}
  {
  }

  lemma EncodeItemsStart(items: seq<Value>)
    requires |items| > 0
    ensures |EncodeItems(items)| > 0 && EncodeItems(items)[0] == Encode(items[0])[0]
    ensures EncodeItems(items)[0] != RightBracket
  {
    EncodeStart(items[0]);
  }

  /** `DecodeItems` after one element: a `]` ends the array, a `,` continues it. */
  lemma DecodeItemsStep(s: Bytes, v: Value, after: Bytes)
    requires DecodeValue(s) == Some((v, after)) && |after| > 0
    ensures after[0] == RightBracket ==> DecodeItems(s) == Some(([v], after[1..]))
    ensures after[0] == Comma ==> DecodeItems(s) == Cons(v, DecodeItems(after[1..]))
  {
  }

  /** The text after the first element of an encoded array. */
  function ItemsAfter(items: seq<Value>, rest: Bytes): Bytes
    requires |items| > 0
  {
    var tail := [RightBracket] + rest;
    if |items| == 1 then tail else [Comma] + EncodeItems(items[1..]) + tail
  }

  lemma EncodeItemsSplit(items: seq<Value>, rest: Bytes)
    requires |items| > 0
    ensures EncodeItems(items) + [RightBracket] + rest == Encode(items[0]) + ItemsAfter(items, rest)
    ensures |ItemsAfter(items, rest)| > 0
    ensures |items| == 1 ==> ItemsAfter(items, rest)[0] == RightBracket && ItemsAfter(items, rest)[1..] == rest
    ensures |items| > 1 ==>
      (ItemsAfter(items, rest)[0] == Comma
       && ItemsAfter(items, rest)[1..] == EncodeItems(items[1..]) + [RightBracket] + rest)
  {
    var head := Encode(items[0]);
    if |items| == 1 {
      assert EncodeItems(items) == head;
      SplitLast(head, RightBracket, rest);
    } else {
      var more := EncodeItems(items[1..]);
      assert EncodeItems(items) == head + [Comma] + more;
      SplitSeparated(head, Comma, more, RightBracket, rest);
    }
  }

  lemma {:induction false} ItemsRoundTrip(items: seq<Value>, rest: Bytes)
    requires |items| > 0
    ensures DecodeItems(EncodeItems(items) + [RightBracket] + rest) == Some((items, rest))
    decreases items, 0
  {
    var after := ItemsAfter(items, rest);
    EncodeItemsSplit(items, rest);
    ValueRoundTrip(items[0], after);
    DecodeItemsStep(Encode(items[0]) + after, items[0], after);
    if |items| == 1 {
      assert [items[0]] == items;
    } else {
      ItemsRoundTrip(items[1..], rest);
      assert [items[0]] + items[1..] == items;
    }
  }

  /** `DecodeMembers` on one `"key":value` and what follows it. */
  lemma DecodeMembersStep(s: Bytes, key: Bytes, afterKey: Bytes, v: Value, after: Bytes)
    requires |s| > 0 && s[0] == Quote
    requires DecodeString(s[1..]) == Some((key, afterKey))
    requires |afterKey| > 0 && afterKey[0] == Colon
    requires DecodeValue(afterKey[1..]) == Some((v, after)) && |after| > 0
    ensures after[0] == RightBrace ==> DecodeMembers(s) == Some(([Member(key, v)], after[1..]))
    ensures after[0] == Comma ==> DecodeMembers(s) == Cons(Member(key, v), DecodeMembers(after[1..]))
  {
  }

  /** The text after the first member's value in an encoded object. */
  function MembersAfter(members: seq<Member>, rest: Bytes): Bytes
    requires |members| > 0
  {
    var tail := [RightBrace] + rest;
    if |members| == 1 then tail else [Comma] + EncodeMembers(members[1..]) + tail
  }

  lemma EncodeMembersSplit(members: seq<Member>, rest: Bytes)
    requires |members| > 0
    ensures EncodeMembers(members) + [RightBrace] + rest == EncodeMember(members[0]) + MembersAfter(members, rest)
    ensures |MembersAfter(members, rest)| > 0
    ensures |members| == 1 ==> MembersAfter(members, rest)[0] == RightBrace && MembersAfter(members, rest)[1..] == rest
    ensures |members| > 1 ==>
      (MembersAfter(members, rest)[0] == Comma
       && MembersAfter(members, rest)[1..] == EncodeMembers(members[1..]) + [RightBrace] + rest)
  {
    var head := EncodeMember(members[0]);
    if |members| == 1 {
      assert EncodeMembers(members) == head;
      SplitLast(head, RightBrace, rest);
    } else {
      var more := EncodeMembers(members[1..]);
      assert EncodeMembers(members) == head + [Comma] + more;
      SplitSeparated(head, Comma, more, RightBrace, rest);
    }
  }

  lemma EncodeMembersStart(members: seq<Member>)
    requires |members| > 0
    ensures |EncodeMembers(members)| > 0 && EncodeMembers(members)[0] == Quote
  {
    var q := Quoted(members[0].key);
    assert q[0] == Quote;
    assert EncodeMember(members[0])[0] == Quote;
  }

  lemma MemberKey(m: Member, after: Bytes)
    ensures var s := EncodeMember(m) + after;
      |s| > 0 && s[0] == Quote && DecodeString(s[1..]) == Some((m.key, [Colon] + Encode(m.value) + after))
  {
    var afterKey := [Colon] + Encode(m.value) + after;
    assert EncodeMember(m) + after == Quoted(m.key) + afterKey;
    QuotedRoundTrip(m.key, afterKey);
  }

  /** One encoded member decodes to itself, then a `}` or a `,` decides. */
  lemma {:induction false} MemberRoundTrip(m: Member, after: Bytes)
    requires |after| > 0
    ensures after[0] == RightBrace ==> DecodeMembers(EncodeMember(m) + after) == Some(([m], after[1..]))
    ensures after[0] == Comma ==> DecodeMembers(EncodeMember(m) + after) == Cons(m, DecodeMembers(after[1..]))
    decreases m, 0
  {
    var s := EncodeMember(m) + after;
    var afterKey := [Colon] + Encode(m.value) + after;
    MemberKey(m, after);
    ValueRoundTrip(m.value, after);
    assert afterKey[1..] == Encode(m.value) + after;
    DecodeMembersStep(s, m.key, afterKey, m.value, after);
  }

  lemma {:induction false} MembersRoundTrip(members: seq<Member>, rest: Bytes)
    requires |members| > 0
    ensures DecodeMembers(EncodeMembers(members) + [RightBrace] + rest) == Some((members, rest))
    decreases members, 0
  {
    var after := MembersAfter(members, rest);
    EncodeMembersSplit(members, rest);
    MemberRoundTrip(members[0], after);
    if |members| == 1 {
      assert [members[0]] == members;
    } else {
      MembersRoundTrip(members[1..], rest);
      assert [members[0]] + members[1..] == members;
    }
  }

  /** A document decodes to the value it encodes. */
  lemma DecodeEncode(v: Value)
    ensures Decode(Encode(v)) == Some(v)
  {
    ValueRoundTrip(v, []);
    assert Encode(v) + [] == Encode(v);
  }

  /** Different values are written differently. */
  lemma EncodeInjective(v: Value, w: Value)
    ensures Encode(v) == Encode(w) <==> v == w
  {
    if Encode(v) == Encode(w) {
      DecodeEncode(v);
      DecodeEncode(w);
    }
  }
}
