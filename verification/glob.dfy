/** Shell-style name matching as done by Go's `filepath.Match`, for the
    fragment of the pattern language made of `*`, `?` and literal bytes. */
module Glob {
  import opened Text

  const Star: uint8 := 42
  const Question: uint8 := 63
  const Slash: uint8 := 47

  /** The bytes whose presence makes a namespace pattern a glob. */
  const GlobMeta: Bytes := Lit("*?[]")

  predicate IsGlob(p: Bytes) {
    ContainsAny(p, GlobMeta)
  }

  /** `*` matches any run of bytes other than the separator `/`, `?` exactly
      one byte other than `/`, and every other pattern byte only itself. */
  function Match(p: Bytes, n: Bytes): bool
    decreases |p| + |n|
  {
    if |p| == 0 then |n| == 0
    else if p[0] == Star then
      Match(p[1..], n) || (|n| > 0 && n[0] != Slash && Match(p, n[1..]))
    else if |n| == 0 then false
    else if p[0] == Question then n[0] != Slash && Match(p[1..], n[1..])
    else p[0] == n[0] && Match(p[1..], n[1..])
  }

  predicate NoWildcard(p: Bytes) {
    forall i :: 0 <= i < |p| ==> p[i] != Star && p[i] != Question
  }

  /** A pattern without wildcards matches exactly the name equal to it. */
  lemma {:induction false} LiteralMatch(p: Bytes, n: Bytes)
    requires NoWildcard(p)
    ensures Match(p, n) <==> p == n
    decreases |p|
  {
    if |p| > 0 && |n| > 0 {
      assert NoWildcard(p[1..]);
      LiteralMatch(p[1..], n[1..]);
      if p[0] == n[0] && p[1..] == n[1..] {
        assert p == [p[0]] + p[1..] && n == [n[0]] + n[1..];
      }
    }
  }

  /** A lone `*` matches exactly the names without a `/`. */
  lemma {:induction false} StarMatch(n: Bytes)
    ensures Match([Star], n) <==> Slash !in n
  {
    if |n| > 0 {
      StarMatch(n[1..]);
      assert n == [n[0]] + n[1..];
    }
  }

  /** A lone `?` matches exactly the one-byte names other than `/`. */
  lemma {:induction false} QuestionMatch(n: Bytes)
    ensures Match([Question], n) <==> |n| == 1 && n[0] != Slash
  {
    if |n| > 0 {
      assert [Question][1..] == [];
    }
  }
}
