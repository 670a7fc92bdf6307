/** Matching a topic name against a topic filter (section 4.7 of MQTT Version 3.1.1). */
module TopicMatch {
  import opened Bytes

  const SLASH: Byte := 47
  const PLUS: Byte := 43
  const HASH: Byte := 35

  // ---------- Levels ----------

  /** Index of the first separator, the length if there is none. */
  function First(s: seq<Byte>): (i: nat)
    ensures i <= |s| && (i < |s| ==> s[i] == SLASH) && SLASH !in s[..i]
  {
    if s == [] || s[0] == SLASH then 0 else 1 + First(s[1..])
  }

  function Levels(s: seq<Byte>): (r: seq<seq<Byte>>)
    ensures r != [] && r[0] == s[..First(s)]
    ensures |r| == 1 <==> First(s) == |s|
  {
    var i := First(s);
    if i == |s| then [s] else [s[..i]] + Levels(s[i + 1..])
  }

  /** A wildcard fills its level, and '#' only the last one. */
  predicate WellFormed(f: seq<seq<Byte>>) {
    forall i :: 0 <= i < |f| ==>
      && (PLUS in f[i] ==> f[i] == [PLUS])
      && (HASH in f[i] ==> f[i] == [HASH] && i == |f| - 1)
  }

  /** What the client implements: '+' stands for one non-empty level, '#' for all remaining
      levels, of which there is at least one and the first is not empty. */
  predicate Matches(f: seq<seq<Byte>>, n: seq<seq<Byte>>) {
    if f == [] || n == [] then f == [] && n == []
    else if f[0] == [HASH] then n[0] != []
    else if f[0] == [PLUS] then n[0] != [] && Matches(f[1..], n[1..])
    else f[0] == n[0] && Matches(f[1..], n[1..])
  }

  /** What section 4.7.1 says: '+' stands for any one level, '#' for any number of levels,
      the parent level included. */
  predicate MatchesStandard(f: seq<seq<Byte>>, n: seq<seq<Byte>>) {
    if f == [] then n == []
    else if f[0] == [HASH] then true
    else if n == [] then false
    else if f[0] == [PLUS] then MatchesStandard(f[1..], n[1..])
    else f[0] == n[0] && MatchesStandard(f[1..], n[1..])
  }

  /** A wildcard faces an empty level, or '#' faces the end of the name. */
  predicate BlindSpot(f: seq<seq<Byte>>, n: seq<seq<Byte>>) {
    exists i :: 0 <= i < |f| && Misses(f, n, i)
  }

  predicate Misses(f: seq<seq<Byte>>, n: seq<seq<Byte>>, i: nat)
    requires i < |f|
  {
    || (f[i] == [PLUS] && i < |n| && n[i] == [])
    || (f[i] == [HASH] && i <= |n| && (i == |n| || n[i] == []))
  }

  // ---------- The pointer loop ----------

  /** Length of the first level of a name that does not begin with a separator. */
  function Skip(n: seq<Byte>): (k: nat)
    requires n != []
    ensures 0 < k <= |n|
  {
    1 + First(n[1..])
  }

  /** What is left to match from two positions, character by character. */
  predicate CharMatch(f: seq<Byte>, n: seq<Byte>)
    decreases |f|
  {
    if f == [] || n == [] then f == [] && n == []
    else if n[0] == SLASH && f[0] != SLASH then false
    else if f[0] != PLUS && f[0] != HASH && f[0] != n[0] then false
    else if f[0] == PLUS then CharMatch(f[1..], n[Skip(n)..])
    else if f[0] == HASH then CharMatch(f[1..], [])
    else CharMatch(f[1..], n[1..])
  }

  lemma {:induction false} FirstAt(s: seq<Byte>, i: nat)
    requires i <= |s| && SLASH !in s[..i] && (i < |s| ==> s[i] == SLASH)
    ensures First(s) == i
    decreases i
  {
    if i > 0 {
      assert s[0] == s[..i][0];
      assert s[1..][..i - 1] == s[..i][1..];
      FirstAt(s[1..], i - 1);
    }
  }

  /** The inner loop: from curn to the last character of its level. */
  method SkipLevel(n: seq<Byte>, at: nat) returns (curn: nat)
    requires at < |n|
    ensures at <= curn < |n| && curn + 1 == at + Skip(n[at..])
  {
    curn := at;
    var nextpos := curn + 1;
    ghost var rest := n[at..];
    while nextpos < |n| && n[nextpos] != SLASH
      invariant at <= curn < |n| && nextpos == curn + 1
      invariant SLASH !in n[at + 1..nextpos]
      decreases |n| - nextpos
    {
      curn := curn + 1;
      nextpos := curn + 1;
    }
    assert rest[1..][..curn - at] == n[at + 1..nextpos];
    FirstAt(rest[1..], curn - at);
  }

  /** The loop over the two strings, as written, on any filter and any name. */
  method Walk(f: seq<Byte>, n: seq<Byte>) returns (matched: bool)
    ensures matched <==> CharMatch(f, n)
  {
    hide Skip, First;
    var curf: nat, curn: nat := 0, 0;
    assert f[0..] == f && n[0..] == n;
    while curf < |f| && curn < |n|
      invariant curf <= |f| && curn <= |n|
      invariant CharMatch(f[curf..], n[curn..]) == CharMatch(f, n)
      decreases |f| - curf
    {
      ghost var rest := n[curn..];
      assert f[curf..][1..] == f[curf + 1..] && rest[1..] == n[curn + 1..];
      if n[curn] == SLASH && f[curf] != SLASH {
        break;
      }
      if f[curf] != PLUS && f[curf] != HASH && f[curf] != n[curn] {
        break;
      }
      ghost var from := curn;
      if f[curf] == PLUS {
        curn := SkipLevel(n, curn);
        assert rest[Skip(rest)..] == n[curn + 1..];
      } else if f[curf] == HASH {
        curn := |n| - 1;
        assert n[curn + 1..] == [];
      }
      curf := curf + 1;
      curn := curn + 1;
    }
    matched := curn == |n| && curf == |f|;
  }

  // ---------- The loop decides level-wise matching ----------

  /** A level without wildcards matches itself and nothing else. */
  lemma {:induction false} LiteralLevel(f: seq<Byte>, n: seq<Byte>)
    requires var l := f[..First(f)]; PLUS !in l && HASH !in l
    ensures CharMatch(f, n) <==>
              f[..First(f)] == n[..First(n)] && CharMatch(f[First(f)..], n[First(n)..])
    decreases |f|
  {
    var i, j := First(f), First(n);
    if i == 0 {
      assert f[i..] == f;
      if j == 0 {
        assert n[j..] == n;
      } else {
        assert n[0] == n[..j][0] != SLASH;
      }
    } else {
      assert f[0] == f[..i][0];
      if j > 0 {
        assert n[0] == n[..j][0];
        assert f[..i][1..] == f[1..][..i - 1] && n[..j][1..] == n[1..][..j - 1];
        assert f[..i] == [f[0]] + f[1..][..i - 1] && n[..j] == [n[0]] + n[1..][..j - 1];
        assert f[1..][i - 1..] == f[i..] && n[1..][j - 1..] == n[j..];
        LiteralLevel(f[1..], n[1..]);
      }
    }
  }

  /** At the end of a level: both end, or both go on with a separator. */
  lemma Boundary(f: seq<Byte>, n: seq<Byte>)
    requires (f != [] ==> f[0] == SLASH) && (n != [] ==> n[0] == SLASH)
    ensures CharMatch(f, n) <==> if f == [] || n == [] then f == [] && n == [] else CharMatch(f[1..], n[1..])
  {
  }

  lemma WellFormedTail(f: seq<seq<Byte>>)
    requires f != [] && WellFormed(f)
    ensures WellFormed(f[1..])
  {
    forall i | 0 <= i < |f| - 1
      ensures PLUS in f[1..][i] ==> f[1..][i] == [PLUS]
      ensures HASH in f[1..][i] ==> f[1..][i] == [HASH] && i == |f| - 2
    {
      assert f[1..][i] == f[i + 1];
    }
  }

  /** For every well-formed filter and every name, the loop decides level-wise matching. */
  lemma {:induction false} WalkIsLevelwise(f: seq<Byte>, n: seq<Byte>)
    requires WellFormed(Levels(f))
    ensures CharMatch(f, n) <==> Matches(Levels(f), Levels(n))
    decreases |f|
  {
    var i, j := First(f), First(n);
    var lf, ln := Levels(f), Levels(n);
    assert lf[0] == f[..i] && ln[0] == n[..j];
    if lf[0] == [HASH] {
      assert f[0] == f[..i][0];
      assert i == |f|;
      assert f[1..] == [];
    } else {
      if lf[0] == [PLUS] {
        PlusLevel(f, n);
      } else {
        LiteralLevel(f, n);
      }
      Boundary(f[i..], n[j..]);
      if i < |f| {
        assert f[i..][1..] == f[i + 1..] && lf[1..] == Levels(f[i + 1..]);
        WellFormedTail(lf);
        if j < |n| {
          assert n[j..][1..] == n[j + 1..] && ln[1..] == Levels(n[j + 1..]);
          WalkIsLevelwise(f[i + 1..], n[j + 1..]);
        } else {
          assert ln[1..] == [];
        }
      } else {
        assert lf[1..] == [];
      }
    }
  }

  lemma PlusLevel(f: seq<Byte>, n: seq<Byte>)
    requires f[..First(f)] == [PLUS]
    ensures CharMatch(f, n) <==> First(n) > 0 && CharMatch(f[First(f)..], n[First(n)..])
  {
    assert f[0] == f[..First(f)][0] && First(f) == 1;
    if First(n) > 0 {
      assert n[0] == n[..First(n)][0];
      assert Skip(n) == First(n);
    }
  }

  /** A filter with '#' before its end matches nothing, although it may be set. */
  lemma {:induction false} HashMustBeLast(f: seq<Byte>, n: seq<Byte>, i: nat)
    requires CharMatch(f, n) && i < |f| && f[i] == HASH
    ensures i == |f| - 1
    decreases |f|
  {
    hide Skip;
    if i > 0 {
      var rest := if f[0] == PLUS then n[Skip(n)..] else if f[0] == HASH then [] else n[1..];
      assert f[1..][i - 1] == HASH;
      HashMustBeLast(f[1..], rest, i - 1);
    }
  }

  // ---------- The client and the standard ----------

  /** The client accepts exactly what the standard accepts, outside the blind spots. */
  lemma {:induction false} MatchesIsStandardOutsideBlindSpots(f: seq<seq<Byte>>, n: seq<seq<Byte>>)
    requires WellFormed(f)
    ensures Matches(f, n) <==> MatchesStandard(f, n) && !BlindSpot(f, n)
    decreases |f|
  {
    if f != [] {
      WellFormedTail(f);
      if f[0] == [HASH] {
        assert |f| == 1 by {
          assert HASH in f[0];
        }
        assert BlindSpot(f, n) <==> Misses(f, n, 0);
      } else if n != [] {
        MatchesIsStandardOutsideBlindSpots(f[1..], n[1..]);
        BlindSpotTail(f, n);
      } else if MatchesStandard(f, n) {
        assert false;
      }
    }
  }

  lemma BlindSpotTail(f: seq<seq<Byte>>, n: seq<seq<Byte>>)
    requires f != [] && n != []
    ensures BlindSpot(f, n) <==> Misses(f, n, 0) || BlindSpot(f[1..], n[1..])
  {
    forall i | 0 < i < |f|
      ensures Misses(f, n, i) <==> Misses(f[1..], n[1..], i - 1)
    {
      assert f[1..][i - 1] == f[i];
    }
    if BlindSpot(f[1..], n[1..]) {
      var i :| 0 <= i < |f| - 1 && Misses(f[1..], n[1..], i);
      assert Misses(f, n, i + 1);
    }
    if BlindSpot(f, n) {
      var i :| 0 <= i < |f| && Misses(f, n, i);
      assert i == 0 || Misses(f[1..], n[1..], i - 1);
    }
  }

  /** So the code never accepts a name the standard rejects, and agrees with it on every name
      without empty levels that is not the parent of a '#'. */
  lemma CodeMeetsStandard(f: seq<Byte>, n: seq<Byte>)
    requires WellFormed(Levels(f))
    ensures CharMatch(f, n) ==> MatchesStandard(Levels(f), Levels(n))
    ensures (forall i :: 0 <= i < |Levels(n)| ==> Levels(n)[i] != []) && |Levels(n)| >= |Levels(f)| ==>
              (CharMatch(f, n) <==> MatchesStandard(Levels(f), Levels(n)))
  {
    WalkIsLevelwise(f, n);
    MatchesIsStandardOutsideBlindSpots(Levels(f), Levels(n));
  }

  /** "a/#" and "a": the standard matches the parent level, the code does not. */
  lemma HashMissesParent()
    ensures var f, n := [97, SLASH, HASH], [97];
            WellFormed(Levels(f)) && MatchesStandard(Levels(f), Levels(n)) && !CharMatch(f, n)
  {
    var f: seq<Byte>, n: seq<Byte> := [97, SLASH, HASH], [97];
    TwoLevels(97, HASH);
    FirstAt(n, 1);
    assert Levels(n) == [n];
    assert f[1..] == [SLASH, HASH] && n[1..] == [];
    assert Levels(f)[1..] == [[HASH]] && Levels(n)[1..] == [];
  }

  /** "a/+" and "a/": likewise the empty last level. */
  lemma PlusMissesEmptyLevel()
    ensures var f, n := [97, SLASH, PLUS], [97, SLASH];
            WellFormed(Levels(f)) && MatchesStandard(Levels(f), Levels(n)) && !CharMatch(f, n)
  {
    var f: seq<Byte>, n: seq<Byte> := [97, SLASH, PLUS], [97, SLASH];
    TwoLevels(97, PLUS);
    FirstAt(n, 1);
    assert n[2..] == [] && Levels([]) == [[]];
    assert n[..1] == [97];
    assert Levels(n) == [[97], []];
    assert f[1..] == [SLASH, PLUS] && f[1..][1..] == [PLUS] && n[1..] == [SLASH] && n[1..][1..] == [];
    assert Levels(f)[1..] == [[PLUS]] && Levels(n)[1..] == [[]];
    assert Levels(f)[1..][1..] == [] && Levels(n)[1..][1..] == [];
    assert !CharMatch(f[1..][1..], n[1..][1..]);
    assert !CharMatch(f[1..], n[1..]);
  }

  lemma TwoLevels(a: Byte, b: Byte)
    requires a != SLASH && b != SLASH
    ensures Levels([a, SLASH, b]) == [[a], [b]]
  {
    var s := [a, SLASH, b];
    FirstAt(s, 1);
    assert s[2..] == [b] && s[..1] == [a];
    FirstAt([b], 1);
  }
}
