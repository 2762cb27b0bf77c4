// The adjacent-duplicate scan `get_dupes` of utils.py and the `sorted`
// call it starts with, which orders sensors by Sensor.__lt__.
module Dupes {
  import opened States
  import opened Sensors

  /** Outcome of a computation that may raise; the only error is a None dereference. */
  datatype Result<T> = Ok(value: T) | NoneDereference

  // ---------------------------------------------------------------------
  // sorted(c), ordered by Sensor.__lt__

  predicate SortedByRadius(s: seq<Sensor>)
  {
    forall i, j :: 0 <= i < j < |s| ==> s[i].RadiusSq() <= s[j].RadiusSq()
  }

  /** Insert `x` after every element it is not strictly closer than. */
  function Insert(s: seq<Sensor>, x: Sensor): seq<Sensor>
  {
    if s == [] then [x]
    else if x.Less(s[0]) then [x] + s
    else [s[0]] + Insert(s[1..], x)
  }

  /**
   * `sorted(c)`: a stable sort that compares with `__lt__` only, written as insertion
   * sort. The result is ordered by distance to (100, 100) and rearranges `c` only.
   */
  function SortByRadius(c: seq<Sensor>): (r: seq<Sensor>)
    ensures SortedByRadius(r)
    ensures multiset(r) == multiset(c)
  {
    if c == [] then []
    else
      var init, last := c[..|c| - 1], c[|c| - 1];
      InsertSorted(SortByRadius(init), last);
      InsertPermutes(SortByRadius(init), last);
      assert c == init + [last];
      Insert(SortByRadius(init), last)
  }

  lemma {:induction false} InsertPermutes(s: seq<Sensor>, x: Sensor)
    ensures multiset(Insert(s, x)) == multiset(s) + multiset{x}
  {
    if s != [] && !x.Less(s[0]) {
      InsertPermutes(s[1..], x);
      assert s == [s[0]] + s[1..];
    }
  }

  /** Inserting keeps a lower bound on the distance that `s` and `x` respect. */
  lemma {:induction false} InsertBounded(s: seq<Sensor>, x: Sensor, bound: int)
    requires forall y :: y in s ==> bound <= y.RadiusSq()
    requires bound <= x.RadiusSq()
    ensures forall y :: y in Insert(s, x) ==> bound <= y.RadiusSq()
  {
    if s != [] && !x.Less(s[0]) {
      assert forall y :: y in s[1..] ==> y in s;
      InsertBounded(s[1..], x, bound);
    }
  }

  lemma SortedCons(y: Sensor, u: seq<Sensor>)
    requires SortedByRadius(u)
    requires forall z :: z in u ==> y.RadiusSq() <= z.RadiusSq()
    ensures SortedByRadius([y] + u)
  {
    var r := [y] + u;
    forall i, j | 0 <= i < j < |r| ensures r[i].RadiusSq() <= r[j].RadiusSq() {
      assert r[j] == u[j - 1] && u[j - 1] in u;
      if i > 0 {
        assert r[i] == u[i - 1];
      }
    }
  }

  lemma SortedUncons(s: seq<Sensor>)
    requires SortedByRadius(s) && s != []
    ensures SortedByRadius(s[1..])
    ensures forall z :: z in s[1..] ==> s[0].RadiusSq() <= z.RadiusSq()
  {
    var t := s[1..];
    forall i, j | 0 <= i < j < |t| ensures t[i].RadiusSq() <= t[j].RadiusSq() {
      assert t[i] == s[i + 1] && t[j] == s[j + 1];
    }
    forall z | z in t ensures s[0].RadiusSq() <= z.RadiusSq() {
      var m :| 0 <= m < |t| && t[m] == z;
      assert s[m + 1] == z;
    }
  }

  lemma {:induction false} InsertSorted(s: seq<Sensor>, x: Sensor)
    requires SortedByRadius(s)
    ensures SortedByRadius(Insert(s, x))
  {
    if s == [] {
    } else {
      SortedUncons(s);
      if x.Less(s[0]) {
        assert s == [s[0]] + s[1..];
        SortedCons(x, s);
      } else {
        InsertSorted(s[1..], x);
        InsertBounded(s[1..], x, s[0].RadiusSq());
        SortedCons(s[0], Insert(s[1..], x));
      }
    }
  }

  // ---------------------------------------------------------------------
  // get_dupes

  /** The i-th and (i+1)-th sensors of `s` share a name. */
  predicate TwinsAt(s: seq<Sensor>, i: int)
  {
    0 <= i < |s| - 1 && s[i].GetName() == s[i + 1].GetName()
  }

  predicate HasAdjacentTwins(s: seq<Sensor>)
  {
    exists i {:trigger TwinsAt(s, i)} :: 0 <= i < |s| - 1 && TwinsAt(s, i)
  }

  /** `k.get_name() != r.get_name()`, which raises when `r` is None. */
  function NamesDiffer(k: Sensor, r: Option<Sensor>): Result<bool>
  {
    match r
    case None => NoneDereference
    case Some(prev) => Ok(k.GetName() != prev.GetName())
  }

  /**
   * `get_dupes` as written: it walks the sorted sensors pairwise, and at the
   * first pair that shares a name it calls `get_name` on `r`, which is still
   * None. So it yields nothing, or raises.
   */
  method GetDupes(c: seq<Sensor>) returns (r: Result<seq<Sensor>>)
    ensures r.NoneDereference? <==> HasAdjacentTwins(SortByRadius(c))
    ensures r.Ok? ==> r.value == []
  {
    var s := SortByRadius(c);
    var dupes: seq<Sensor> := [];
    var last: Option<Sensor> := None;
    var i := 0;
    while i < |s| - 1
      invariant 0 <= i && (s != [] ==> i <= |s| - 1)
      invariant last == None && dupes == []
      invariant forall k {:trigger TwinsAt(s, k)} :: 0 <= k < i ==> !TwinsAt(s, k)
    {
      var k, g := s[i], s[i + 1];
      if k.GetName() == g.GetName() {
        var differs := NamesDiffer(k, last);
        if differs == NoneDereference {
          assert TwinsAt(s, i);
          return NoneDereference;
        } else if differs == Ok(true) {
          dupes := dupes + [k];
          last := Some(k);
        }
      }
      i := i + 1;
    }
    return Ok(dupes);
  }

  /** The names of the reported sensors. */
  function NameSet(dupes: seq<Sensor>): set<Name>
  {
    set d | d in dupes :: d.GetName()
  }

  predicate NoRepeatedNeighbours(dupes: seq<Sensor>)
  {
    forall m :: 0 <= m < |dupes| - 1 ==> dupes[m].GetName() != dupes[m + 1].GetName()
  }

  /**
   * What the corrected scan reports from pair `i` of `s` on, `last` being the sensor
   * reported most recently: `s[i]` is reported exactly when it starts a pair of equal
   * names and either nothing has been reported yet or the last report has another name.
   */
  function CorrectedDupes(s: seq<Sensor>, i: nat, last: Option<Sensor>): seq<Sensor>
    decreases |s| - i
  {
    if i + 1 >= |s| then []
    else if TwinsAt(s, i) && (last.None? || s[i].GetName() != last.value.GetName()) then
      [s[i]] + CorrectedDupes(s, i + 1, Some(s[i]))
    else
      CorrectedDupes(s, i + 1, last)
  }

  /** Every sensor the scan reports from pair `i` on starts a pair of equal names there. */
  lemma {:induction false} CorrectedReportsTwins(s: seq<Sensor>, i: nat, last: Option<Sensor>)
    ensures forall d :: d in CorrectedDupes(s, i, last) ==>
      exists k {:trigger TwinsAt(s, k)} :: i <= k && TwinsAt(s, k) && s[k] == d
    decreases |s| - i
  {
    if i + 1 < |s| {
      if TwinsAt(s, i) && (last.None? || s[i].GetName() != last.value.GetName()) {
        CorrectedReportsTwins(s, i + 1, Some(s[i]));
      } else {
        CorrectedReportsTwins(s, i + 1, last);
      }
    }
  }

  /**
   * Every pair of equal names from pair `i` on has its name reported, unless it is the
   * name reported last before `i`.
   */
  lemma {:induction false} CorrectedCoversTwins(s: seq<Sensor>, i: nat, last: Option<Sensor>)
    ensures forall k {:trigger TwinsAt(s, k)} :: i <= k && TwinsAt(s, k) ==>
      s[k].GetName() in NameSet(CorrectedDupes(s, i, last)) || (last.Some? && s[k].GetName() == last.value.GetName())
    decreases |s| - i
  {
    if i + 1 < |s| {
      if TwinsAt(s, i) && (last.None? || s[i].GetName() != last.value.GetName()) {
        CorrectedCoversTwins(s, i + 1, Some(s[i]));
        var rest := CorrectedDupes(s, i + 1, Some(s[i]));
        assert NameSet([s[i]] + rest) == {s[i].GetName()} + NameSet(rest);
      } else {
        CorrectedCoversTwins(s, i + 1, last);
      }
    }
  }

  /** Consecutive reports have different names, and the first differs from the last report before `i`. */
  lemma {:induction false} CorrectedNoRepeats(s: seq<Sensor>, i: nat, last: Option<Sensor>)
    ensures NoRepeatedNeighbours(CorrectedDupes(s, i, last))
    ensures last.Some? && CorrectedDupes(s, i, last) != [] ==>
      CorrectedDupes(s, i, last)[0].GetName() != last.value.GetName()
    decreases |s| - i
  {
    if i + 1 < |s| {
      if TwinsAt(s, i) && (last.None? || s[i].GetName() != last.value.GetName()) {
        CorrectedNoRepeats(s, i + 1, Some(s[i]));
        var rest := CorrectedDupes(s, i + 1, Some(s[i]));
        var r := [s[i]] + rest;
        forall m | 0 <= m < |r| - 1 ensures r[m].GetName() != r[m + 1].GetName() {
          if m > 0 {
            assert r[m] == rest[m - 1] && r[m + 1] == rest[m];
          }
        }
      } else {
        CorrectedNoRepeats(s, i + 1, last);
      }
    }
  }

  /**
   * From the start: the scan reports nothing exactly when no neighbours share a name,
   * reports only sensors that start such a pair, reports every such name, and never
   * reports one name twice in a row.
   */
  lemma CorrectedDupesFacts(s: seq<Sensor>)
    ensures CorrectedDupes(s, 0, None) == [] <==> !HasAdjacentTwins(s)
    ensures forall d :: d in CorrectedDupes(s, 0, None) ==>
      exists i {:trigger TwinsAt(s, i)} :: TwinsAt(s, i) && s[i] == d
    ensures forall i {:trigger TwinsAt(s, i)} :: TwinsAt(s, i) ==> s[i].GetName() in NameSet(CorrectedDupes(s, 0, None))
    ensures NoRepeatedNeighbours(CorrectedDupes(s, 0, None))
  {
    var r := CorrectedDupes(s, 0, None);
    CorrectedReportsTwins(s, 0, None);
    CorrectedCoversTwins(s, 0, None);
    CorrectedNoRepeats(s, 0, None);
    if r == [] {
      assert NameSet(r) == {};
    } else {
      assert r[0] in r;
    }
  }

  /**
   * A name that comes back after another name in between is not reported again
   * when it was the last one reported: `[A, A, B, A, A]` reports the first A only.
   */
  lemma ReturningNameReportedOnce(a1: Sensor, a2: Sensor, b: Sensor, a3: Sensor, a4: Sensor)
    requires a1.GetName() == a2.GetName() == a3.GetName() == a4.GetName()
    requires b.GetName() != a1.GetName()
    ensures CorrectedDupes([a1, a2, b, a3, a4], 0, None) == [a1]
  {
    var s := [a1, a2, b, a3, a4];
    assert TwinsAt(s, 0) && !TwinsAt(s, 1) && !TwinsAt(s, 2) && TwinsAt(s, 3);
    assert CorrectedDupes(s, 3, Some(a1)) == CorrectedDupes(s, 4, Some(a1)) == [];
    assert CorrectedDupes(s, 1, Some(a1)) == CorrectedDupes(s, 2, Some(a1)) == CorrectedDupes(s, 3, Some(a1));
  }

  /**
   * `get_dupes` with `r is None` read as "nothing reported yet": it reports the first
   * sensor of a pair of adjacent equal names unless the previous report has that name.
   */
  method GetDupesCorrected(c: seq<Sensor>) returns (dupes: seq<Sensor>)
    ensures dupes == CorrectedDupes(SortByRadius(c), 0, None)
    ensures dupes == [] <==> !HasAdjacentTwins(SortByRadius(c))
    ensures forall d :: d in dupes ==>
      exists i {:trigger TwinsAt(SortByRadius(c), i)} :: TwinsAt(SortByRadius(c), i) && SortByRadius(c)[i] == d
    ensures forall i {:trigger TwinsAt(SortByRadius(c), i)} :: TwinsAt(SortByRadius(c), i) ==>
      SortByRadius(c)[i].GetName() in NameSet(dupes)
    ensures NoRepeatedNeighbours(dupes)
  {
    var s := SortByRadius(c);
    dupes := [];
    var last: Option<Sensor> := None;
    var i := 0;
    while i < |s| - 1
      invariant 0 <= i && (s != [] ==> i <= |s| - 1)
      invariant dupes + CorrectedDupes(s, i, last) == CorrectedDupes(s, 0, None)
    {
      var k, g := s[i], s[i + 1];
      if k.GetName() == g.GetName() && (last.None? || k.GetName() != last.value.GetName()) {
        assert dupes + CorrectedDupes(s, i, last) == (dupes + [k]) + CorrectedDupes(s, i + 1, Some(k));
        dupes := dupes + [k];
        last := Some(k);
      }
      i := i + 1;
    }
    assert dupes == CorrectedDupes(s, 0, None);
    CorrectedDupesFacts(s);
  }

  /** Appending is what inserting does when nothing in `s` is farther out than `x`. */
  lemma {:induction false} InsertAtEnd(s: seq<Sensor>, x: Sensor)
    requires forall y :: y in s ==> y.RadiusSq() <= x.RadiusSq()
    ensures Insert(s, x) == s + [x]
  {
    if s != [] {
      assert s[0] in s;
      assert forall y :: y in s[1..] ==> y in s;
      InsertAtEnd(s[1..], x);
      assert s == [s[0]] + s[1..];
    }
  }

  /** Dropping the last sensor of an ordered list leaves it ordered and below that sensor. */
  lemma SortedInit(c: seq<Sensor>)
    requires SortedByRadius(c) && c != []
    ensures SortedByRadius(c[..|c| - 1])
    ensures forall y :: y in c[..|c| - 1] ==> y.RadiusSq() <= c[|c| - 1].RadiusSq()
  {
    var init := c[..|c| - 1];
    forall i, j | 0 <= i < j < |init| ensures init[i].RadiusSq() <= init[j].RadiusSq() {
      assert init[i] == c[i] && init[j] == c[j];
    }
    forall y | y in init ensures y.RadiusSq() <= c[|c| - 1].RadiusSq() {
      var m :| 0 <= m < |init| && init[m] == y;
      assert c[m] == y;
    }
  }

  /** `sorted` leaves a list that is already in distance order as it is. */
  lemma {:induction false} SortOfSorted(c: seq<Sensor>)
    requires SortedByRadius(c)
    ensures SortByRadius(c) == c
  {
    if c != [] {
      var init, last := c[..|c| - 1], c[|c| - 1];
      SortedInit(c);
      SortOfSorted(init);
      InsertAtEnd(init, last);
      assert c == init + [last];
    }
  }

  /** Two sensors at one position: `get_dupes` reaches its None dereference. */
  lemma DuplicatePositionMakesGetDupesRaise(a: Sensor, b: Sensor)
    requires a.GetName() == b.GetName()
    ensures HasAdjacentTwins(SortByRadius([a, b]))
  {
    SortOfSorted([a, b]);
    assert TwinsAt([a, b], 0);
  }

  /**
   * Only neighbours in distance order are compared: two sensors at (100, 110)
   * separated by a tie at (110, 100) are never seen as duplicates.
   */
  lemma TiedDuplicatesGoUnnoticed(a: Sensor, b: Sensor, c: Sensor)
    requires a.posX == 100 && a.posY == 110
    requires b.posX == 110 && b.posY == 100
    requires c.posX == 100 && c.posY == 110
    ensures a.GetName() == c.GetName()
    ensures !HasAdjacentTwins(SortByRadius([a, b, c]))
  {
    assert a.RadiusSq() == b.RadiusSq() == c.RadiusSq();
    SortOfSorted([a, b, c]);
    assert !TwinsAt([a, b, c], 0) && !TwinsAt([a, b, c], 1);
  }
}
