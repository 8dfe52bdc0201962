/**
 * getLatestMajorVersions (chromium-downloader.js): from the known-good version
 * list, the newest version of each major, the majors ordered from highest to
 * lowest and cut to a count.
 */
module ChromeVersions {
  import opened Wrappers
  import opened JsStrings

  /** One entry of the result: a major number (as text) and its chosen full version. */
  datatype MajorVersion = MajorVersion(major: string, version: string)

  /** `version.split('.')[0]` */
  function MajorOf(version: string): string {
    Before(version, '.')
  }

  const LatestCount: nat := 20

  // ---------------------------------------------------------------------------
  // The map from major to version, filled from the end of the list

  predicate HasMajor(entries: seq<MajorVersion>, major: string) {
    exists e :: e in entries && e.major == major
  }

  /** `if (!majorMap.has(major)) majorMap.set(major, version)`, with the map's insertion order kept. */
  function Record(entries: seq<MajorVersion>, version: string): seq<MajorVersion> {
    var major := MajorOf(version);
    if HasMajor(entries, major) then entries else entries + [MajorVersion(major, version)]
  }

  /** The map's entries, in insertion order, after visiting `versions` from its last element to its first. */
  function MajorMap(versions: seq<string>): seq<MajorVersion> {
    if versions == [] then [] else Record(MajorMap(versions[1..]), versions[0])
  }

  predicate DistinctMajors(entries: seq<MajorVersion>) {
    forall i, j :: 0 <= i < j < |entries| ==> entries[i].major != entries[j].major
  }

  /** `versions[i]` is the last version in the list whose major is `major`. */
  ghost predicate LastOfMajor(versions: seq<string>, i: int, major: string) {
    && 0 <= i < |versions|
    && MajorOf(versions[i]) == major
    && forall j :: i < j < |versions| ==> MajorOf(versions[j]) != major
  }

  /**
   * The map has one entry per major occurring in the list, and the version it
   * keeps for a major is the last one in the list with that major.
   */
  lemma {:induction false} MajorMapChoosesLast(versions: seq<string>)
    ensures DistinctMajors(MajorMap(versions))
    ensures forall e :: e in MajorMap(versions) ==>
      exists i :: LastOfMajor(versions, i, e.major) && versions[i] == e.version
    ensures forall v :: v in versions ==> HasMajor(MajorMap(versions), MajorOf(v))
    ensures forall e :: e in MajorMap(versions) ==> exists v :: v in versions && MajorOf(v) == e.major
  {
    if versions != [] {
      var rest := versions[1..];
      var m := MajorMap(rest);
      MajorMapChoosesLast(rest);
      var first := versions[0];
      var major := MajorOf(first);
      forall e | e in MajorMap(versions)
        ensures exists i :: LastOfMajor(versions, i, e.major) && versions[i] == e.version
      {
        if e in m {
          var i :| LastOfMajor(rest, i, e.major) && rest[i] == e.version;
          assert LastOfMajor(versions, i + 1, e.major) by {
            forall j | i + 1 < j < |versions| ensures MajorOf(versions[j]) != e.major {
              assert versions[j] == rest[j - 1];
            }
          }
        } else {
          assert e == MajorVersion(major, first) && !HasMajor(m, major);
          assert LastOfMajor(versions, 0, e.major) by {
            forall j | 0 < j < |versions| ensures MajorOf(versions[j]) != major {
              assert versions[j] in rest;
            }
          }
        }
      }
      forall v | v in versions ensures HasMajor(MajorMap(versions), MajorOf(v)) {
        if v != first {
          assert v in rest;
          var e :| e in m && e.major == MajorOf(v);
          assert e in MajorMap(versions);
        } else if !HasMajor(m, major) {
          assert MajorMap(versions)[|m|] == MajorVersion(major, first);
        }
      }
      forall e | e in MajorMap(versions) ensures exists v :: v in versions && MajorOf(v) == e.major {
        if e in m {
          var v :| v in rest && MajorOf(v) == e.major;
          assert v in versions;
        } else {
          assert versions[0] == first;
        }
      }
    }
  }

  // ---------------------------------------------------------------------------
  // Sorting by `parseInt(b.major) - parseInt(a.major)`

  /** Every major in the list reads as a number with parseInt. */
  predicate MajorsParse(versions: seq<string>) {
    forall i :: 0 <= i < |versions| ==> ParseInt(MajorOf(versions[i])).Some?
  }

  /** `parseInt(major)`, with 0 standing in for NaN, which the callers exclude. */
  function MajorKey(major: string): int {
    match ParseInt(major)
    case Some(k) => k
    case None => 0
  }

  /** An entry with the key the comparator computes for it. */
  datatype Ranked = Ranked(key: int, entry: MajorVersion)

  function Rank(entries: seq<MajorVersion>): (r: seq<Ranked>)
    ensures |r| == |entries|
    ensures forall i :: 0 <= i < |r| ==> r[i] == Ranked(MajorKey(entries[i].major), entries[i])
  {
    seq(|entries|, i requires 0 <= i < |entries| => Ranked(MajorKey(entries[i].major), entries[i]))
  }

  function Unrank(s: seq<Ranked>): (r: seq<MajorVersion>)
    ensures |r| == |s|
    ensures forall i :: 0 <= i < |r| ==> r[i] == s[i].entry
  {
    seq(|s|, i requires 0 <= i < |s| => s[i].entry)
  }

  predicate SortedDescending(s: seq<Ranked>) {
    forall i, j :: 0 <= i < j < |s| ==> s[j].key <= s[i].key
  }

  predicate DistinctRanked(s: seq<Ranked>) {
    forall i, j :: 0 <= i < j < |s| ==> s[i].entry.major != s[j].entry.major
  }

  /** Insert `e` before the first entry whose key does not exceed its own, so earlier entries stay ahead of equal ones. */
  function InsertDescending(e: Ranked, t: seq<Ranked>): seq<Ranked> {
    if t == [] || t[0].key <= e.key then [e] + t
    else [t[0]] + InsertDescending(e, t[1..])
  }

  /** A stable sort, highest key first (the engine's `Array.prototype.sort` is stable). */
  function SortDescending(s: seq<Ranked>): seq<Ranked> {
    if s == [] then [] else InsertDescending(s[0], SortDescending(s[1..]))
  }

  /** A list headed by `x` is descending when its tail is and no tail entry has a higher key. */
  lemma SortedCons(x: Ranked, r: seq<Ranked>)
    requires SortedDescending(r) && forall y :: y in r ==> y.key <= x.key
    ensures SortedDescending([x] + r)
  {
    var whole := [x] + r;
    forall i, j | 0 <= i < j < |whole| ensures whole[j].key <= whole[i].key {
      assert whole[j] == r[j - 1];
      if i > 0 {
        assert whole[i] == r[i - 1];
      } else {
        assert whole[j] in r;
      }
    }
  }

  lemma {:induction false} InsertDescendingMembers(e: Ranked, t: seq<Ranked>)
    ensures forall y :: y in InsertDescending(e, t) <==> y == e || y in t
  {
    if t != [] && e.key < t[0].key {
      InsertDescendingMembers(e, t[1..]);
      assert t == [t[0]] + t[1..];
    }
  }

  lemma {:induction false} InsertDescendingCorrect(e: Ranked, t: seq<Ranked>)
    requires SortedDescending(t)
    ensures SortedDescending(InsertDescending(e, t))
    ensures multiset(InsertDescending(e, t)) == multiset(t) + multiset{e}
  {
    if t == [] || t[0].key <= e.key {
      SortedCons(e, t);
    } else {
      var tail := t[1..];
      assert t == [t[0]] + tail;
      InsertDescendingCorrect(e, tail);
      InsertDescendingMembers(e, tail);
      var r := InsertDescending(e, tail);
      forall y | y in r ensures y.key <= t[0].key {
        if y != e {
          var k :| 0 <= k < |tail| && tail[k] == y;
          assert t[k + 1] == y;
        }
      }
      SortedCons(t[0], r);
    }
  }

  /** The sort yields a descending permutation of its input. */
  lemma {:induction false} SortDescendingCorrect(s: seq<Ranked>)
    ensures SortedDescending(SortDescending(s))
    ensures multiset(SortDescending(s)) == multiset(s)
  {
    if s != [] {
      SortDescendingCorrect(s[1..]);
      InsertDescendingCorrect(s[0], SortDescending(s[1..]));
      assert s == [s[0]] + s[1..];
    }
  }

  lemma {:induction false} SortDescendingMembers(s: seq<Ranked>)
    ensures forall y :: y in SortDescending(s) <==> y in s
  {
    if s != [] {
      SortDescendingMembers(s[1..]);
      InsertDescendingMembers(s[0], SortDescending(s[1..]));
      assert s == [s[0]] + s[1..];
    }
  }

  /** A list headed by `x` has distinct majors when its tail has and lacks the major of `x`. */
  lemma DistinctCons(x: Ranked, r: seq<Ranked>)
    requires DistinctRanked(r) && forall y :: y in r ==> y.entry.major != x.entry.major
    ensures DistinctRanked([x] + r)
  {
    var whole := [x] + r;
    forall i, j | 0 <= i < j < |whole| ensures whole[i].entry.major != whole[j].entry.major {
      assert whole[j] == r[j - 1];
      if i > 0 {
        assert whole[i] == r[i - 1];
      } else {
        assert whole[j] in r;
      }
    }
  }

  lemma DistinctTail(s: seq<Ranked>)
    requires DistinctRanked(s) && s != []
    ensures DistinctRanked(s[1..])
    ensures forall y :: y in s[1..] ==> y.entry.major != s[0].entry.major
  {
    var tail := s[1..];
    forall i, j | 0 <= i < j < |tail| ensures tail[i].entry.major != tail[j].entry.major {
      assert tail[i] == s[i + 1] && tail[j] == s[j + 1];
    }
    forall y | y in tail ensures y.entry.major != s[0].entry.major {
      var k :| 0 <= k < |tail| && tail[k] == y;
      assert s[k + 1] == y;
    }
  }

  /** Inserting an entry whose major is new keeps the majors distinct. */
  lemma {:induction false} InsertDescendingDistinct(e: Ranked, t: seq<Ranked>)
    requires DistinctRanked(t) && forall y :: y in t ==> y.entry.major != e.entry.major
    ensures DistinctRanked(InsertDescending(e, t))
  {
    if t == [] || t[0].key <= e.key {
      DistinctCons(e, t);
    } else {
      var tail := t[1..];
      DistinctTail(t);
      InsertDescendingDistinct(e, tail);
      InsertDescendingMembers(e, tail);
      assert t[0] in t;
      DistinctCons(t[0], InsertDescending(e, tail));
    }
  }

  lemma {:induction false} SortDescendingDistinct(s: seq<Ranked>)
    requires DistinctRanked(s)
    ensures DistinctRanked(SortDescending(s))
  {
    if s != [] {
      DistinctTail(s);
      SortDescendingDistinct(s[1..]);
      SortDescendingMembers(s[1..]);
      InsertDescendingDistinct(s[0], SortDescending(s[1..]));
    }
  }

  // ---------------------------------------------------------------------------
  // The whole function

  function Min(a: nat, b: nat): nat {
    if a <= b then a else b
  }

  /** `getLatestMajorVersions(versions, count)` as a value. */
  function LatestMajors(versions: seq<string>, count: nat): seq<MajorVersion> {
    var sorted := SortDescending(Rank(MajorMap(versions)));
    Unrank(sorted[..Min(count, |sorted|)])
  }

  /**
   * The loop over `versions` from the end fills the map; the entries are then
   * sorted, cut to `count` and returned.
   */
  method GetLatestMajorVersions(versions: seq<string>, count: nat) returns (latest: seq<MajorVersion>)
    requires MajorsParse(versions)
    ensures latest == LatestMajors(versions, count)
  {
    var entries: seq<MajorVersion> := [];
    var i := |versions|;
    while i > 0
      invariant 0 <= i <= |versions|
      invariant entries == MajorMap(versions[i..])
    {
      i := i - 1;
      var version := versions[i];
      var major := MajorOf(version);
      assert versions[i..][1..] == versions[i + 1..];
      if !(exists e :: e in entries && e.major == major) {
        entries := entries + [MajorVersion(major, version)];
      }
    }
    assert versions[0..] == versions;
    var sorted := SortDescending(Rank(entries));
    latest := Unrank(sorted[..Min(count, |sorted|)]);
  }

  /** Highest major first, by parseInt of the majors. */
  predicate MajorsDescending(s: seq<MajorVersion>) {
    forall i, j :: 0 <= i < j < |s| ==> MajorKey(s[j].major) <= MajorKey(s[i].major)
  }

  /** The sorted ranked entries: exactly the map's entries, each with its parseInt key, highest key first. */
  lemma SortedRankFacts(entries: seq<MajorVersion>)
    ensures var sorted := SortDescending(Rank(entries));
      && |sorted| == |entries|
      && SortedDescending(sorted)
      && (DistinctMajors(entries) ==> DistinctRanked(sorted))
      && (forall y :: y in sorted ==> y.key == MajorKey(y.entry.major) && y.entry in entries)
      && (forall e :: e in entries ==> exists k :: 0 <= k < |sorted| && sorted[k].entry == e)
  {
    var ranked := Rank(entries);
    SortDescendingCorrect(ranked);
    SortDescendingMembers(ranked);
    var sorted := SortDescending(ranked);
    assert |sorted| == |multiset(sorted)| == |multiset(ranked)| == |ranked|;
    if DistinctMajors(entries) {
      assert DistinctRanked(ranked);
      SortDescendingDistinct(ranked);
    }
    forall y | y in sorted ensures y.key == MajorKey(y.entry.major) && y.entry in entries {
      var k :| 0 <= k < |ranked| && ranked[k] == y;
    }
    forall e | e in entries ensures exists k :: 0 <= k < |sorted| && sorted[k].entry == e {
      var k0 :| 0 <= k0 < |entries| && entries[k0] == e;
      assert ranked[k0] in ranked;
      var k :| 0 <= k < |sorted| && sorted[k] == ranked[k0];
    }
  }

  /** At most `count` entries, with distinct majors, highest major first. */
  lemma LatestMajorsOrdered(versions: seq<string>, count: nat)
    ensures var latest := LatestMajors(versions, count);
      && |latest| <= count
      && DistinctMajors(latest)
      && MajorsDescending(latest)
  {
    var entries := MajorMap(versions);
    MajorMapChoosesLast(versions);
    SortedRankFacts(entries);
    var sorted := SortDescending(Rank(entries));
    var latest := LatestMajors(versions, count);
    assert forall i :: 0 <= i < |latest| ==> latest[i] == sorted[i].entry;
    assert DistinctMajors(latest) by {
      forall i, j | 0 <= i < j < |latest| ensures latest[i].major != latest[j].major {
        assert latest[i] == sorted[i].entry && latest[j] == sorted[j].entry;
      }
    }
    forall i, j | 0 <= i < j < |latest| ensures MajorKey(latest[j].major) <= MajorKey(latest[i].major) {
      assert sorted[i] in sorted && sorted[j] in sorted;
    }
  }

  /** Each returned version is the last one in the list with its major. */
  lemma LatestMajorsChooseLast(versions: seq<string>, count: nat)
    ensures forall e :: e in LatestMajors(versions, count) ==>
      exists i :: LastOfMajor(versions, i, e.major) && versions[i] == e.version
  {
    var entries := MajorMap(versions);
    MajorMapChoosesLast(versions);
    SortedRankFacts(entries);
    var sorted := SortDescending(Rank(entries));
    var latest := LatestMajors(versions, count);
    forall e | e in latest
      ensures exists i :: LastOfMajor(versions, i, e.major) && versions[i] == e.version
    {
      var k :| 0 <= k < |latest| && latest[k] == e;
      assert sorted[k] in sorted;
    }
  }

  /**
   * A major of the list is missing from the result only when `count` entries
   * were returned, all with majors at least as high as the missing one.
   */
  lemma LatestMajorsComplete(versions: seq<string>, count: nat)
    ensures var latest := LatestMajors(versions, count);
      forall v :: v in versions ==>
        HasMajor(latest, MajorOf(v))
        || (|latest| == count && (count > 0 ==> MajorKey(MajorOf(v)) <= MajorKey(latest[count - 1].major)))
  {
    var entries := MajorMap(versions);
    MajorMapChoosesLast(versions);
    SortedRankFacts(entries);
    var sorted := SortDescending(Rank(entries));
    var n := Min(count, |sorted|);
    var latest := LatestMajors(versions, count);
    forall v | v in versions
      ensures HasMajor(latest, MajorOf(v))
        || (|latest| == count && (count > 0 ==> MajorKey(MajorOf(v)) <= MajorKey(latest[count - 1].major)))
    {
      var e :| e in entries && e.major == MajorOf(v);
      var k :| 0 <= k < |sorted| && sorted[k].entry == e;
      assert sorted[k] in sorted;
      if k < n {
        assert latest[k] == e;
      } else if count > 0 {
        assert latest[count - 1] == sorted[count - 1].entry;
        assert sorted[count - 1] in sorted;
      }
    }
  }
}
