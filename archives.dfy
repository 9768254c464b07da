/**
 * Archive records and the derived list the archive view shows: the records whose
 * type matches the type filter, sorted by the chosen key with a +1/-1 direction
 * multiplier on the comparator.
 */
module Archives {
  import opened Text
  import Seqs

  datatype Status = Active | Archived

  /**
   * One archived document. `date` is the record's timestamp in milliseconds since
   * the epoch, i.e. the value `new Date(record.date).getTime()` yields.
   */
  datatype ArchiveRecord = ArchiveRecord(
    id: int,
    title: string,
    fileType: string,
    author: string,
    date: int,
    size: string,
    status: Status)

  /** The three values the sort-key selector offers. */
  datatype SortKey = ByDate | ByType | ByAuthor

  datatype SortOrder = Ascending | Descending

  /** The sort-order button: ascending becomes descending and back. */
  function ToggleOrder(o: SortOrder): (r: SortOrder)
    ensures r != o
  {
    if o == Ascending then Descending else Ascending
  }

  // ---------------------------------------------------------------------------
  // Type filter
  // ---------------------------------------------------------------------------

  /** The filter value that keeps every record; compared exactly, without lower-casing. */
  const AllTypes: string := "all"

  /** The filter callback: "all" keeps every record, any other filter compares lower-cased types. */
  function Matches(filter: string, a: ArchiveRecord): (b: bool)
    ensures filter == AllTypes ==> b
    ensures filter != AllTypes ==> (b <==> Lower(a.fileType) == Lower(filter))
    ensures b && filter != AllTypes ==> |a.fileType| == |filter|
  {
    filter == AllTypes || Lower(a.fileType) == Lower(filter)
  }

  /** Two records whose types differ only in letter case are kept or dropped together. */
  lemma MatchesIgnoresCase(filter: string, a: ArchiveRecord, b: ArchiveRecord)
    requires Lower(a.fileType) == Lower(b.fileType)
    ensures Matches(filter, a) <==> Matches(filter, b)
  {
  }

  function FilterByType(s: seq<ArchiveRecord>, filter: string): (r: seq<ArchiveRecord>)
    ensures forall x :: x in r <==> x in s && Matches(filter, x)
    ensures forall x :: multiset(r)[x] == if Matches(filter, x) then multiset(s)[x] else 0
    ensures filter == AllTypes ==> r == s
  {
    var r := Seqs.Filter(x => Matches(filter, x), s);
    if filter == AllTypes then Seqs.FilterKeepsAll(x => Matches(filter, x), s); r else r
  }

  /** The filter keeps the surviving records in their input order. */
  lemma FilterByTypeKeepsOrder(s: seq<ArchiveRecord>, filter: string)
    ensures Seqs.IsSubsequence(FilterByType(s, filter), s)
  {
    Seqs.FilterIsSubsequence(x => Matches(filter, x), s);
  }

  // ---------------------------------------------------------------------------
  // Comparator
  // ---------------------------------------------------------------------------

  /** The direction multiplier: 1 for ascending, -1 for descending. */
  function Direction(o: SortOrder): (d: int)
    ensures d == 1 || d == -1
  {
    if o == Ascending then 1 else -1
  }

  /** The two records agree on the sort key. */
  predicate SameKey(key: SortKey, a: ArchiveRecord, b: ArchiveRecord) {
    match key
    case ByDate => a.date == b.date
    case ByType => a.fileType == b.fileType
    case ByAuthor => a.author == b.author
  }

  /**
   * The comparator handed to the sort: negative puts `a` first, positive puts `b`
   * first, zero leaves them as they are. For dates it subtracts `a` from `b`, so
   * with the +1 multiplier of "ascending" the later record comes first.
   */
  function Comparator(key: SortKey, o: SortOrder, a: ArchiveRecord, b: ArchiveRecord): (r: int)
    ensures r == 0 <==> SameKey(key, a, b)
    ensures key == ByDate && o == Ascending ==> (r < 0 <==> a.date > b.date)
    ensures key == ByDate && o == Descending ==> (r < 0 <==> a.date < b.date)
    ensures key == ByType ==> (r < 0 <==> Direction(o) * Compare(a.fileType, b.fileType) < 0)
    ensures key == ByAuthor ==> (r < 0 <==> Direction(o) * Compare(a.author, b.author) < 0)
  {
    match key
    case ByDate => Direction(o) * (b.date - a.date)
    case ByType => Direction(o) * Compare(a.fileType, b.fileType)
    case ByAuthor => Direction(o) * Compare(a.author, b.author)
  }

  /** `a` may stand before `b` in a list sorted with this comparator. */
  predicate Precedes(key: SortKey, o: SortOrder, a: ArchiveRecord, b: ArchiveRecord) {
    Comparator(key, o, a, b) <= 0
  }

  lemma ComparatorAntisymmetric(key: SortKey, o: SortOrder, a: ArchiveRecord, b: ArchiveRecord)
    ensures Comparator(key, o, b, a) == -Comparator(key, o, a, b)
  {
    match key
    case ByDate =>
    case ByType => CompareAntisymmetric(a.fileType, b.fileType);
    case ByAuthor => CompareAntisymmetric(a.author, b.author);
  }

  /** Flipping the direction negates the comparator. */
  lemma ComparatorFlip(key: SortKey, a: ArchiveRecord, b: ArchiveRecord)
    ensures Comparator(key, Descending, a, b) == -Comparator(key, Ascending, a, b)
  {
  }

  lemma PrecedesTotal(key: SortKey, o: SortOrder, a: ArchiveRecord, b: ArchiveRecord)
    ensures Precedes(key, o, a, b) || Precedes(key, o, b, a)
  {
    ComparatorAntisymmetric(key, o, a, b);
  }

  lemma PrecedesTransitive(key: SortKey, o: SortOrder, a: ArchiveRecord, b: ArchiveRecord, c: ArchiveRecord)
    requires Precedes(key, o, a, b) && Precedes(key, o, b, c)
    ensures Precedes(key, o, a, c)
  {
    match key
    case ByDate =>
    case ByType =>
      if o == Ascending {
        CompareTransitive(a.fileType, b.fileType, c.fileType);
      } else {
        CompareAntisymmetric(a.fileType, b.fileType);
        CompareAntisymmetric(b.fileType, c.fileType);
        CompareAntisymmetric(a.fileType, c.fileType);
        CompareTransitive(c.fileType, b.fileType, a.fileType);
      }
    case ByAuthor =>
      if o == Ascending {
        CompareTransitive(a.author, b.author, c.author);
      } else {
        CompareAntisymmetric(a.author, b.author);
        CompareAntisymmetric(b.author, c.author);
        CompareAntisymmetric(a.author, c.author);
        CompareTransitive(c.author, b.author, a.author);
      }
  }

  // ---------------------------------------------------------------------------
  // Stable sort
  // ---------------------------------------------------------------------------

  predicate Sorted(key: SortKey, o: SortOrder, s: seq<ArchiveRecord>) {
    forall i, j :: 0 <= i < j < |s| ==> Precedes(key, o, s[i], s[j])
  }

  /** The records of `s` that agree with `x` on the key, in their order in `s`. */
  function Ties(key: SortKey, s: seq<ArchiveRecord>, x: ArchiveRecord): seq<ArchiveRecord> {
    if s == [] then [] else (if SameKey(key, x, s[0]) then [s[0]] else []) + Ties(key, s[1..], x)
  }

  lemma {:induction false} TiesMember(key: SortKey, s: seq<ArchiveRecord>, x: ArchiveRecord, y: ArchiveRecord)
    requires y in Ties(key, s, x)
    ensures y in s && SameKey(key, x, y)
  {
    if s != [] && y in Ties(key, s[1..], x) {
      TiesMember(key, s[1..], x, y);
    }
  }

  /** `r` keeps every group of records that agree on the key in the order `s` has them. */
  ghost predicate Stable(key: SortKey, r: seq<ArchiveRecord>, s: seq<ArchiveRecord>) {
    forall x :: Ties(key, r, x) == Ties(key, s, x)
  }

  /** Puts `x` before the first record of `s` it may precede. */
  function Insert(key: SortKey, o: SortOrder, x: ArchiveRecord, s: seq<ArchiveRecord>): (r: seq<ArchiveRecord>)
    ensures multiset(r) == multiset(s) + multiset{x}
  {
    if s == [] then [x]
    else if Precedes(key, o, x, s[0]) then [x] + s
    else
      var r := [s[0]] + Insert(key, o, x, s[1..]);
      assert s == [s[0]] + s[1..];
      r
  }

  /**
   * The sort JavaScript's Array.prototype.sort performs with this comparator. The
   * language requires that sort to be stable, and SortUnique shows that a stable
   * sort's result is determined, so insertion sort stands for any of them.
   */
  function Sort(key: SortKey, o: SortOrder, s: seq<ArchiveRecord>): (r: seq<ArchiveRecord>)
    ensures multiset(r) == multiset(s)
  {
    if s == [] then []
    else
      var r := Insert(key, o, s[0], Sort(key, o, s[1..]));
      assert s == [s[0]] + s[1..];
      r
  }

  /** A record that may precede every record of a sorted list may head it. */
  lemma ConsSorted(key: SortKey, o: SortOrder, z: ArchiveRecord, t: seq<ArchiveRecord>)
    requires Sorted(key, o, t)
    requires forall j :: 0 <= j < |t| ==> Precedes(key, o, z, t[j])
    ensures Sorted(key, o, [z] + t)
  {
    var r := [z] + t;
    forall i, j | 0 <= i < j < |r| ensures Precedes(key, o, r[i], r[j]) {
      assert r[j] == t[j - 1];
      if i > 0 {
        assert r[i] == t[i - 1];
      }
    }
  }

  lemma {:induction false} InsertSorted(key: SortKey, o: SortOrder, x: ArchiveRecord, s: seq<ArchiveRecord>)
    requires Sorted(key, o, s)
    ensures Sorted(key, o, Insert(key, o, x, s))
  {
    if s == [] {
    } else if Precedes(key, o, x, s[0]) {
      forall j | 0 <= j < |s| ensures Precedes(key, o, x, s[j]) {
        if j > 0 {
          PrecedesTransitive(key, o, x, s[0], s[j]);
        }
      }
      ConsSorted(key, o, x, s);
    } else {
      PrecedesTotal(key, o, x, s[0]);
      var tail := s[1..];
      assert Sorted(key, o, tail) by {
        forall i, j | 0 <= i < j < |tail| ensures Precedes(key, o, tail[i], tail[j]) {
          assert tail[i] == s[i + 1] && tail[j] == s[j + 1];
        }
      }
      var rest := Insert(key, o, x, tail);
      InsertSorted(key, o, x, tail);
      forall j | 0 <= j < |rest| ensures Precedes(key, o, s[0], rest[j]) {
        assert rest[j] in multiset(rest);
        if rest[j] != x {
          assert rest[j] in multiset(tail);
          var k :| 0 <= k < |tail| && tail[k] == rest[j];
          assert s[k + 1] == rest[j];
        }
      }
      ConsSorted(key, o, s[0], rest);
    }
  }

  lemma {:induction false} SortSorted(key: SortKey, o: SortOrder, s: seq<ArchiveRecord>)
    ensures Sorted(key, o, Sort(key, o, s))
  {
    if s != [] {
      SortSorted(key, o, s[1..]);
      InsertSorted(key, o, s[0], Sort(key, o, s[1..]));
    }
  }

  lemma SameKeyEquivalence(key: SortKey, a: ArchiveRecord, b: ArchiveRecord, c: ArchiveRecord)
    ensures SameKey(key, a, a)
    ensures SameKey(key, a, b) ==> SameKey(key, b, a)
    ensures SameKey(key, a, b) && SameKey(key, b, c) ==> SameKey(key, a, c)
  {
  }

  lemma TiesSelf(key: SortKey, s: seq<ArchiveRecord>)
    requires s != []
    ensures Ties(key, s, s[0]) != []
  {
    SameKeyEquivalence(key, s[0], s[0], s[0]);
  }

  /** Filtering a sequence that starts with `x`. */
  lemma TiesCons(key: SortKey, x: ArchiveRecord, s: seq<ArchiveRecord>, y: ArchiveRecord)
    ensures Ties(key, [x] + s, y) == (if SameKey(key, y, x) then [x] else []) + Ties(key, s, y)
  {
    assert ([x] + s)[1..] == s;
  }

  /** A record that `x` must pass cannot share a tie group with `x`. */
  lemma PassedNotTied(key: SortKey, o: SortOrder, x: ArchiveRecord, z: ArchiveRecord, y: ArchiveRecord)
    requires !Precedes(key, o, x, z)
    ensures !(SameKey(key, y, z) && SameKey(key, y, x))
  {
    if SameKey(key, y, z) && SameKey(key, y, x) {
      SameKeyEquivalence(key, x, y, z);
      assert false;
    }
  }

  /** Putting `z` in front of two lists leaves their tie groups related as before, unless `z` joins `hx`'s group. */
  lemma TiesConsBoth(key: SortKey, z: ArchiveRecord, rest: seq<ArchiveRecord>, t: seq<ArchiveRecord>,
                     y: ArchiveRecord, hx: seq<ArchiveRecord>)
    requires Ties(key, rest, y) == hx + Ties(key, t, y)
    requires hx == [] || !SameKey(key, y, z)
    ensures Ties(key, [z] + rest, y) == hx + Ties(key, [z] + t, y)
  {
    TiesCons(key, z, rest, y);
    TiesCons(key, z, t, y);
    var tail := Ties(key, t, y);
    if SameKey(key, y, z) {
      assert hx == [];
      assert Ties(key, [z] + rest, y) == [z] + tail;
      assert Ties(key, [z] + t, y) == [z] + tail;
      assert hx + ([z] + tail) == [z] + tail;
    } else {
      assert Ties(key, [z] + rest, y) == [] + (hx + tail) == hx + tail;
      assert Ties(key, [z] + t, y) == [] + tail == tail;
    }
  }

  /** Inserting `x` adds it at the front of its own tie group and changes no other group. */
  lemma {:induction false} InsertTies(key: SortKey, o: SortOrder, x: ArchiveRecord, s: seq<ArchiveRecord>, y: ArchiveRecord)
    ensures Ties(key, Insert(key, o, x, s), y) == (if SameKey(key, y, x) then [x] else []) + Ties(key, s, y)
  {
    if s == [] {
      TiesCons(key, x, [], y);
    } else if Precedes(key, o, x, s[0]) {
      TiesCons(key, x, s, y);
    } else {
      InsertTies(key, o, x, s[1..], y);
      PassedNotTied(key, o, x, s[0], y);
      TiesConsBoth(key, s[0], Insert(key, o, x, s[1..]), s[1..], y, if SameKey(key, y, x) then [x] else []);
      assert [s[0]] + s[1..] == s;
    }
  }

  lemma {:induction false} SortStable(key: SortKey, o: SortOrder, s: seq<ArchiveRecord>)
    ensures Stable(key, Sort(key, o, s), s)
  {
    if s != [] {
      SortStable(key, o, s[1..]);
      forall y ensures Ties(key, Sort(key, o, s), y) == Ties(key, s, y) {
        InsertTies(key, o, s[0], Sort(key, o, s[1..]), y);
        TiesCons(key, s[0], s[1..], y);
        assert [s[0]] + s[1..] == s;
      }
    }
  }

  /** Two sorted sequences with the same tie groups start with the same record. */
  lemma StableHeadsEqual(key: SortKey, o: SortOrder, a: seq<ArchiveRecord>, b: seq<ArchiveRecord>)
    requires a != [] && b != []
    requires Sorted(key, o, a) && Sorted(key, o, b) && Stable(key, a, b)
    ensures a[0] == b[0]
  {
    var a0, b0 := a[0], b[0];
    SameKeyEquivalence(key, a0, a0, a0);
    SameKeyEquivalence(key, b0, b0, b0);
    TiesCons(key, a0, a[1..], a0);
    TiesCons(key, b0, b[1..], b0);
    assert a == [a0] + a[1..] && b == [b0] + b[1..];
    TiesMember(key, b, a0, a0);
    TiesMember(key, a, b0, b0);
    assert Precedes(key, o, b0, a0);
    assert Precedes(key, o, a0, b0);
    ComparatorAntisymmetric(key, o, a0, b0);
    TiesCons(key, b0, b[1..], a0);
    assert Ties(key, a, a0)[0] == a0 && Ties(key, b, a0)[0] == b0;
  }

  /** Removing the same first record from two lists with the same tie groups keeps them alike. */
  lemma StableTails(key: SortKey, a: seq<ArchiveRecord>, b: seq<ArchiveRecord>)
    requires a != [] && b != [] && a[0] == b[0] && Stable(key, a, b)
    ensures Stable(key, a[1..], b[1..])
  {
    var a0 := a[0];
    assert a == [a0] + a[1..] && b == [a0] + b[1..];
    forall y ensures Ties(key, a[1..], y) == Ties(key, b[1..], y) {
      TiesCons(key, a0, a[1..], y);
      TiesCons(key, a0, b[1..], y);
      var head := if SameKey(key, y, a0) then [a0] else [];
      assert Ties(key, a[1..], y) == Ties(key, a, y)[|head|..];
      assert Ties(key, b[1..], y) == Ties(key, b, y)[|head|..];
    }
  }

  /** A tail of a sorted sequence is sorted. */
  lemma SortedTail(key: SortKey, o: SortOrder, a: seq<ArchiveRecord>)
    requires a != [] && Sorted(key, o, a)
    ensures Sorted(key, o, a[1..])
  {
    var t := a[1..];
    forall i, j | 0 <= i < j < |t| ensures Precedes(key, o, t[i], t[j]) {
      assert t[i] == a[i + 1] && t[j] == a[j + 1];
    }
  }

  /** Two sorted sequences with the same tie groups are equal. */
  lemma {:induction false} SortedStableEqual(key: SortKey, o: SortOrder, a: seq<ArchiveRecord>, b: seq<ArchiveRecord>)
    requires Sorted(key, o, a) && Sorted(key, o, b) && Stable(key, a, b)
    ensures a == b
    decreases |a|
  {
    if a == [] || b == [] {
      if a != b {
        TiesSelf(key, if a == [] then b else a);
        assert false;
      }
    } else {
      StableHeadsEqual(key, o, a, b);
      StableTails(key, a, b);
      SortedTail(key, o, a);
      SortedTail(key, o, b);
      SortedStableEqual(key, o, a[1..], b[1..]);
      assert a == [a[0]] + a[1..] && b == [b[0]] + b[1..];
    }
  }

  /** Any sorted, stable rearrangement of `s` is the one Sort computes. */
  lemma SortUnique(key: SortKey, o: SortOrder, s: seq<ArchiveRecord>, r: seq<ArchiveRecord>)
    requires Sorted(key, o, r) && Stable(key, r, s)
    ensures r == Sort(key, o, s)
  {
    SortSorted(key, o, s);
    SortStable(key, o, s);
    SortedStableEqual(key, o, r, Sort(key, o, s));
  }

  // ---------------------------------------------------------------------------
  // The derived list
  // ---------------------------------------------------------------------------

  /** The list the archive view shows: filter by type, then sort. */
  function Derive(all: seq<ArchiveRecord>, filter: string, key: SortKey, o: SortOrder): (r: seq<ArchiveRecord>)
    ensures forall x :: x in r <==> x in all && Matches(filter, x)
    ensures forall x :: multiset(r)[x] == if Matches(filter, x) then multiset(all)[x] else 0
    ensures |r| <= |all|
    ensures filter == AllTypes ==> multiset(r) == multiset(all)
  {
    var kept := FilterByType(all, filter);
    var r := Sort(key, o, kept);
    assert forall x :: x in r <==> x in multiset(r);
    assert forall x :: x in kept <==> x in multiset(kept);
    assert |r| == |multiset(r)| == |multiset(kept)| == |kept|;
    r
  }

  /** The derived list is sorted, and records that tie on the key keep their input order. */
  lemma DeriveOrdered(all: seq<ArchiveRecord>, filter: string, key: SortKey, o: SortOrder)
    ensures Sorted(key, o, Derive(all, filter, key, o))
    ensures Stable(key, Derive(all, filter, key, o), FilterByType(all, filter))
  {
    SortSorted(key, o, FilterByType(all, filter));
    SortStable(key, o, FilterByType(all, filter));
  }

  /** Sorting by date "ascending" shows the newest record first; "descending" the oldest. */
  lemma DateOrderInverted(all: seq<ArchiveRecord>, filter: string, o: SortOrder, i: int, j: int)
    requires var r := Derive(all, filter, ByDate, o); 0 <= i < j < |r|
    ensures var r := Derive(all, filter, ByDate, o);
      if o == Ascending then r[i].date >= r[j].date else r[i].date <= r[j].date
  {
    DeriveOrdered(all, filter, ByDate, o);
  }

  /** Sorting by type or author: "ascending" is non-decreasing, "descending" non-increasing. */
  lemma TextOrder(all: seq<ArchiveRecord>, filter: string, key: SortKey, o: SortOrder, i: int, j: int)
    requires key != ByDate
    requires var r := Derive(all, filter, key, o); 0 <= i < j < |r|
    ensures var r := Derive(all, filter, key, o);
      var (x, y) := if key == ByType then (r[i].fileType, r[j].fileType) else (r[i].author, r[j].author);
      if o == Ascending then Compare(x, y) <= 0 else Compare(y, x) <= 0
  {
    var r := Derive(all, filter, key, o);
    DeriveOrdered(all, filter, key, o);
    assert Precedes(key, o, r[i], r[j]);
    if key == ByType {
      CompareAntisymmetric(r[i].fileType, r[j].fileType);
    } else {
      CompareAntisymmetric(r[i].author, r[j].author);
    }
  }

  /**
   * Flipping the direction reverses the relative order of two records that differ
   * on the key: if `a` stands before `b` ascending, `b` stands before `a` descending.
   */
  lemma FlipReversesOrder(all: seq<ArchiveRecord>, filter: string, key: SortKey, i: int, j: int, i': int, j': int)
    requires var up := Derive(all, filter, key, Ascending); 0 <= i < j < |up|
    requires var up := Derive(all, filter, key, Ascending); !SameKey(key, up[i], up[j])
    requires var up, down := Derive(all, filter, key, Ascending), Derive(all, filter, key, Descending);
      0 <= i' < |down| && 0 <= j' < |down| && down[i'] == up[i] && down[j'] == up[j]
    ensures j' < i'
  {
    DeriveOrdered(all, filter, key, Ascending);
    DeriveOrdered(all, filter, key, Descending);
    SortedOppositeOrders(key, Derive(all, filter, key, Ascending), Derive(all, filter, key, Descending), i, j, i', j');
  }

  lemma SortedOppositeOrders(key: SortKey, up: seq<ArchiveRecord>, down: seq<ArchiveRecord>, i: int, j: int, i': int, j': int)
    requires Sorted(key, Ascending, up) && Sorted(key, Descending, down)
    requires 0 <= i < j < |up| && !SameKey(key, up[i], up[j])
    requires 0 <= i' < |down| && 0 <= j' < |down| && down[i'] == up[i] && down[j'] == up[j]
    ensures j' < i'
  {
    ComparatorFlip(key, up[i], up[j]);
    if i' <= j' {
      assert false;
    }
  }

  // ---------------------------------------------------------------------------
  // The fixed seed set
  // ---------------------------------------------------------------------------

  /** The two mock records; dates are 2024-03-15 and 2024-03-14 at 00:00 UTC. */
  const MockArchives: seq<ArchiveRecord> := [
    ArchiveRecord(1, "Financial Report 2024", "PDF", "John Doe", 1710460800000, "2.5 MB", Active),
    ArchiveRecord(2, "Meeting Minutes", "DOC", "Jane Smith", 1710374400000, "1.2 MB", Archived)
  ]

  /** The type filter "pdf" keeps only the financial report of the seed set. */
  lemma PdfFilterKeepsReport()
    ensures FilterByType(MockArchives, "pdf") == [MockArchives[0]]
  {
    assert Lower("PDF") == "pdf" by { assert Lower("PDF") == [LowerChar('P')] + Lower("DF"); }
    assert Lower("DOC") != "pdf" by { assert Lower("DOC")[0] == LowerChar('D'); }
    var p := x => Matches("pdf", x);
    assert MockArchives[1..] == [MockArchives[1]] && [MockArchives[1]][1..] == [];
    assert Seqs.Filter(p, [MockArchives[1]]) == [];
    assert Seqs.Filter(p, MockArchives) == [MockArchives[0]] + [];
  }

  /** Filtering the seed set by "pdf" leaves only the financial report, under every sort. */
  lemma PdfFilterScenario(key: SortKey, o: SortOrder)
    ensures Derive(MockArchives, "pdf", key, o) == [MockArchives[0]]
  {
    PdfFilterKeepsReport();
    assert [MockArchives[0]][1..] == [];
    assert Sort(key, o, [MockArchives[0]]) == [MockArchives[0]];
  }

  /** The initial view ("all", by date, descending) lists the older record first. */
  lemma InitialViewScenario()
    ensures Derive(MockArchives, AllTypes, ByDate, Descending) == [MockArchives[1], MockArchives[0]]
  {
  }
}
