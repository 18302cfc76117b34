/** The namespace pattern resolver: from the configured exact names and globs
    to the list of namespaces that receive a kubeconfig secret. */
module NamespaceResolver {
  import opened Text
  import opened Wrappers
  import opened Seqs
  import opened Glob

  /** The pattern used when none is configured. */
  const DefaultPattern: Bytes := Lit("flux-system")

  function EffectivePatterns(configured: seq<Bytes>): (pats: seq<Bytes>)
    ensures |pats| > 0
    ensures |configured| == 0 ==> pats == [DefaultPattern]
    ensures |configured| > 0 ==> pats == configured
  {
    if |configured| == 0 then [DefaultPattern] else configured
  }

  /** The trimmed patterns, empty ones dropped, in input order. */
  function TrimmedNonEmpty(pats: seq<Bytes>): (ts: seq<Bytes>)
    ensures forall x :: x in ts <==> x != [] && exists i :: 0 <= i < |pats| && TrimSpace(pats[i]) == x
  {
    if |pats| == 0 then []
    else
      var t := TrimSpace(pats[0]);
      var rest := TrimmedNonEmpty(pats[1..]);
      assert forall i :: 1 <= i < |pats| ==> pats[1..][i - 1] == pats[i];
      (if t == [] then [] else [t]) + rest
  }

  /** The pattern loop: each pattern is trimmed, empty ones are skipped and a
      pattern already in `seen` is skipped; the rest are appended to `seen`. */
  function Scan(pats: seq<Bytes>, seen: seq<Bytes>): seq<Bytes>
  {
    if |pats| == 0 then seen
    else
      var p := TrimSpace(pats[0]);
      if p == [] || p in seen then Scan(pats[1..], seen)
      else Scan(pats[1..], seen + [p])
  }

  /** The distinct patterns in first-occurrence order (the `seen` set). */
  function Seen(configured: seq<Bytes>): seq<Bytes> {
    Scan(EffectivePatterns(configured), [])
  }

  /** The non-glob patterns, in order (the `exact` list). */
  function Exacts(seen: seq<Bytes>): (ex: seq<Bytes>)
    ensures forall x :: x in ex <==> x in seen && !IsGlob(x)
    ensures Distinct(seen) ==> Distinct(ex)
  {
    if |seen| == 0 then []
    else
      var rest := Exacts(seen[1..]);
      assert forall x :: x in seen <==> x == seen[0] || x in seen[1..];
      (if IsGlob(seen[0]) then [] else [seen[0]]) + rest
  }

  predicate HasGlob(seen: seq<Bytes>) {
    exists i :: 0 <= i < |seen| && IsGlob(seen[i])
  }

  /** Some pattern of `seen` matches `name`. */
  predicate MatchesSome(seen: seq<Bytes>, name: Bytes) {
    exists i :: 0 <= i < |seen| && Match(seen[i], name)
  }

  /** The listed namespaces that some pattern matches, in list order. */
  function Matched(names: seq<Bytes>, seen: seq<Bytes>): (ms: seq<Bytes>)
    ensures forall x :: x in ms <==> x in names && MatchesSome(seen, x)
  {
    if |names| == 0 then []
    else
      var rest := Matched(names[1..], seen);
      assert forall x :: x in names <==> x == names[0] || x in names[1..];
      (if MatchesSome(seen, names[0]) then [names[0]] else []) + rest
  }

  /** `resolveFluxNamespaces`. `listing` is what listing all namespaces would
      give; it is consulted only when some pattern is a glob. Go returns the
      glob case from a map, in no particular order; this model returns the
      matched namespaces in list order followed by the remaining exact names. */
  function Resolve<E>(configured: seq<Bytes>, listing: Result<seq<Bytes>, E>): (r: Result<seq<Bytes>, E>)
    ensures r.Ok? ==> Distinct(r.value)
    ensures !HasGlob(Seen(configured)) ==> r == Ok(Exacts(Seen(configured)))
    ensures HasGlob(Seen(configured)) && listing.Err? ==> r == Err(listing.error)
    ensures HasGlob(Seen(configured)) && listing.Ok? ==>
      r.Ok? && forall x :: x in r.value <==>
        (x in Seen(configured) && !IsGlob(x)) || (x in listing.value && MatchesSome(Seen(configured), x))
  {
    var seen := Seen(configured);
    SeenIsFirstOccurrences(configured);
    var exact := Exacts(seen);
    if !HasGlob(seen) then
      Ok(exact)
    else
      match listing
      case Err(e) => Err(e)
      case Ok(names) => Ok(Dedup(Matched(names, seen) + exact))
  }

  // ---- the pattern loop computes the first occurrences ----

  /** Dropping a repeat of an element that already occurred does not change
      the first occurrences. */
  lemma {:induction false} DedupSkipsRepeat<T(!new)>(a: seq<T>, t: T, b: seq<T>)
    requires t in a
    ensures Dedup(a + [t] + b) == Dedup(a + b)
    decreases |b|
  {
    if |b| == 0 {
      assert a + [t] + b == a + [t];
      assert a + b == a;
      assert (a + [t])[..|a + [t]| - 1] == a;
    } else {
      var b' := b[..|b| - 1];
      var x := b[|b| - 1];
      DedupSkipsRepeat(a, t, b');
      assert (a + [t] + b)[..|a + [t] + b| - 1] == a + [t] + b';
      assert (a + b)[..|a + b| - 1] == a + b';
      assert x in a + [t] + b' <==> x in a + b';
    }
  }

  lemma DedupAppendNew<T(!new)>(a: seq<T>, t: T)
    requires t !in a
    ensures Dedup(a + [t]) == Dedup(a) + [t]
  {
    assert (a + [t])[..|a + [t]| - 1] == a;
  }

  lemma {:induction false} ScanIsDedup(pats: seq<Bytes>, done: seq<Bytes>)
    ensures Scan(pats, Dedup(done)) == Dedup(done + TrimmedNonEmpty(pats))
    decreases |pats|
  {
    if |pats| == 0 {
      assert done + [] == done;
    } else {
      var p := TrimSpace(pats[0]);
      var rest := TrimmedNonEmpty(pats[1..]);
      assert TrimmedNonEmpty(pats) == (if p == [] then [] else [p]) + rest;
      if p == [] {
        assert Scan(pats, Dedup(done)) == Scan(pats[1..], Dedup(done));
        ScanIsDedup(pats[1..], done);
        assert TrimmedNonEmpty(pats) == rest;
      } else if p in Dedup(done) {
        ScanSkip(pats, done, p, rest);
      } else {
        ScanKeep(pats, done, p, rest);
      }
    }
  }

  lemma {:induction false} ScanSkip(pats: seq<Bytes>, done: seq<Bytes>, p: Bytes, rest: seq<Bytes>)
    requires |pats| > 0 && p == TrimSpace(pats[0]) && p != [] && p in Dedup(done)
    requires rest == TrimmedNonEmpty(pats[1..])
    requires TrimmedNonEmpty(pats) == [p] + rest
    ensures Scan(pats, Dedup(done)) == Dedup(done + TrimmedNonEmpty(pats))
    decreases |pats|, 0
  {
    assert Scan(pats, Dedup(done)) == Scan(pats[1..], Dedup(done));
    ScanIsDedup(pats[1..], done);
    DedupSkipsRepeat(done, p, rest);
    Regroup(done, p, rest);
  }

  lemma {:induction false} ScanKeep(pats: seq<Bytes>, done: seq<Bytes>, p: Bytes, rest: seq<Bytes>)
    requires |pats| > 0 && p == TrimSpace(pats[0]) && p != [] && p !in Dedup(done)
    requires rest == TrimmedNonEmpty(pats[1..])
    requires TrimmedNonEmpty(pats) == [p] + rest
    ensures Scan(pats, Dedup(done)) == Dedup(done + TrimmedNonEmpty(pats))
    decreases |pats|, 0
  {
    var seen := Dedup(done);
    assert Scan(pats, seen) == Scan(pats[1..], seen + [p]);
    DedupAppendNew(done, p);
    ScanIsDedup(pats[1..], done + [p]);
    Regroup(done, p, rest);
  }

  /** The patterns kept are exactly the first occurrences of the trimmed,
      non-empty patterns, so they are distinct and none is lost. */
  lemma SeenIsFirstOccurrences(configured: seq<Bytes>)
    ensures Seen(configured) == Dedup(TrimmedNonEmpty(EffectivePatterns(configured)))
    ensures Distinct(Seen(configured))
    ensures forall x :: x in Seen(configured) <==>
      x != [] && exists i :: 0 <= i < |EffectivePatterns(configured)| && TrimSpace(EffectivePatterns(configured)[i]) == x
  {
    assert Dedup<Bytes>([]) == [];
    ScanIsDedup(EffectivePatterns(configured), []);
    assert [] + TrimmedNonEmpty(EffectivePatterns(configured)) == TrimmedNonEmpty(EffectivePatterns(configured));
  }

  // ---- properties of the resolver ----

  /** Without a glob the namespace listing is never consulted: the result is
      the same whatever listing would have returned, and it cannot fail. */
  lemma NoGlobNoListing<E>(configured: seq<Bytes>, l1: Result<seq<Bytes>, E>, l2: Result<seq<Bytes>, E>)
    requires !HasGlob(Seen(configured))
    ensures Resolve(configured, l1) == Resolve(configured, l2)
    ensures Resolve(configured, l1).Ok?
  {
  }

  /** Every exact pattern is a target namespace whenever resolution
      succeeds, whether or not a namespace of that name exists. */
  lemma ExactsPassThrough<E>(configured: seq<Bytes>, listing: Result<seq<Bytes>, E>, x: Bytes)
    requires Resolve(configured, listing).Ok?
    requires x in Seen(configured) && !IsGlob(x)
    ensures x in Resolve(configured, listing).value
  {
  }

  /** A glob contributes only namespaces that were listed. */
  lemma GlobMatchesAreListed<E>(configured: seq<Bytes>, names: seq<Bytes>, x: Bytes)
    requires x in Resolve<E>(configured, Ok(names)).value
    requires x !in Seen(configured) || IsGlob(x)
    ensures HasGlob(Seen(configured)) && x in names && MatchesSome(Seen(configured), x)
  {
  }

  /** With no patterns configured the only target is `flux-system`. */
  lemma DefaultTarget<E>(listing: Result<seq<Bytes>, E>)
    ensures Resolve([], listing) == Ok([DefaultPattern])
  {
    DefaultSeen();
    assert !HasGlob([DefaultPattern]);
    assert Exacts([DefaultPattern]) == [DefaultPattern];
  }

  lemma DefaultSeen()
    ensures Seen([]) == [DefaultPattern] && !IsGlob(DefaultPattern)
  {
    DefaultTrimmed();
    assert [DefaultPattern][1..] == [];
    assert Scan([DefaultPattern], []) == Scan([], [DefaultPattern]);
  }

  lemma DefaultTrimmed()
    ensures TrimSpace(DefaultPattern) == DefaultPattern && !IsGlob(DefaultPattern)
  {
    var p: Bytes := [102, 108, 117, 120, 45, 115, 121, 115, 116, 101, 109];
    assert DefaultPattern == p;
    assert GlobMeta == [42, 63, 91, 93];
    assert FirstNonSpace(p, 0) == 0;
    assert EndOfNonSpace(p, 0, |p|) == |p|;
    assert p[0..|p|] == p;
  }
}
