/**
 * The bulk-selection tracker: the ordered list of checked records, the per-row
 * toggle, the header checkbox (select all / select none) and the header's
 * "all selected" indicator, which compares lengths only.
 */
module Selection {
  import opened Archives
  import Seqs

  /** Some selected record carries this identifier (`selected.some(a => a.id === id)`). */
  function HasId(sel: seq<ArchiveRecord>, id: int): (b: bool)
    ensures b <==> id in Ids(sel)
  {
    exists x :: x in sel && x.id == id
  }

  /** No identifier occurs twice. */
  predicate UniqueIds(s: seq<ArchiveRecord>) {
    forall i, j :: 0 <= i < j < |s| ==> s[i].id != s[j].id
  }

  function Ids(s: seq<ArchiveRecord>): set<int> {
    set x | x in s :: x.id
  }

  /** The filter condition of the removal: the record's identifier is not `id`. */
  function NotId(id: int): ArchiveRecord -> bool {
    (x: ArchiveRecord) => x.id != id
  }

  /** Every entry with identifier `id` removed, the others kept in order. */
  function WithoutId(sel: seq<ArchiveRecord>, id: int): (r: seq<ArchiveRecord>)
    ensures forall x :: x in r <==> x in sel && x.id != id
    ensures HasId(sel, id) ==> |r| < |sel|
    ensures Seqs.IsSubsequence(r, sel)
    ensures multiset(r) <= multiset(sel)
    ensures forall x :: multiset(r)[x] == if x.id != id then multiset(sel)[x] else 0
  {
    Seqs.FilterIsSubsequence(NotId(id), sel);
    Seqs.Filter(NotId(id), sel)
  }

  /**
   * The row checkbox: a record whose identifier is already selected is removed
   * (every entry with that identifier); any other record is appended at the end.
   */
  function Toggle(sel: seq<ArchiveRecord>, a: ArchiveRecord): (r: seq<ArchiveRecord>)
    ensures HasId(r, a.id) <==> !HasId(sel, a.id)
    ensures forall id :: id != a.id ==> (HasId(r, id) <==> HasId(sel, id))
    ensures HasId(sel, a.id) ==>
      |r| < |sel| && Seqs.IsSubsequence(r, sel) && (forall x :: x in r <==> x in sel && x.id != a.id) &&
      forall x :: multiset(r)[x] == if x.id != a.id then multiset(sel)[x] else 0
    ensures !HasId(sel, a.id) ==> r == sel + [a]
  {
    if HasId(sel, a.id) then WithoutId(sel, a.id)
    else
      var r := sel + [a];
      assert a in r;
      r
  }

  /** Toggling a record that is not selected, twice, gives back the original selection. */
  lemma ToggleTwice(sel: seq<ArchiveRecord>, a: ArchiveRecord)
    requires !HasId(sel, a.id)
    ensures Toggle(Toggle(sel, a), a) == sel
  {
    var p := NotId(a.id);
    Seqs.FilterAppend(p, sel, [a]);
    Seqs.FilterKeepsAll(p, sel);
    assert Seqs.Filter(p, [a]) == [];
  }

  /** The toggle never lets an identifier into the selection twice. */
  lemma ToggleKeepsUniqueIds(sel: seq<ArchiveRecord>, a: ArchiveRecord)
    requires UniqueIds(sel)
    ensures UniqueIds(Toggle(sel, a))
  {
    if HasId(sel, a.id) {
      SubMultisetKeepsUniqueIds(WithoutId(sel, a.id), sel);
    } else {
      var r := sel + [a];
      forall i | 0 <= i < |sel| ensures r[i].id != a.id {
        assert sel[i] in sel;
      }
    }
  }

  /** The header checkbox: checked selects exactly the visible list, unchecked selects nothing. */
  function HeaderChange(checked: bool, visible: seq<ArchiveRecord>): (r: seq<ArchiveRecord>)
    ensures checked ==> r == visible
    ensures !checked ==> r == []
    ensures checked ==> AllSelected(r, visible) && forall x :: x in visible ==> HasId(r, x.id)
    ensures !checked ==> forall id :: !HasId(r, id)
    ensures !checked ==> (AllSelected(r, visible) <==> visible == [])
  {
    if checked then visible else []
  }

  /** The header checkbox shows checked when the two lengths agree. */
  function AllSelected(sel: seq<ArchiveRecord>, visible: seq<ArchiveRecord>): (b: bool)
    ensures sel == visible ==> b
    ensures b <==> |sel| == |visible|
  {
    |sel| == |visible|
  }

  /** After selecting everything, unticking any visible row clears the header checkbox. */
  lemma DeselectOneClearsHeader(visible: seq<ArchiveRecord>, a: ArchiveRecord)
    requires a in visible
    ensures !AllSelected(Toggle(HeaderChange(true, visible), a), visible)
  {
    assert HasId(visible, a.id);
  }

  lemma {:induction false} IdsCardinality(s: seq<ArchiveRecord>)
    requires UniqueIds(s)
    ensures |Ids(s)| == |s|
  {
    if s != [] {
      IdsCardinality(s[1..]);
      assert Ids(s) == {s[0].id} + Ids(s[1..]);
      assert s[0].id !in Ids(s[1..]);
    }
  }

  lemma SubsetSameSize(a: set<int>, b: set<int>)
    requires a <= b && |a| == |b|
    ensures a == b
  {
    assert b == a + (b - a);
    assert |b - a| == 0;
  }

  /**
   * The length comparison is right exactly when the selection holds only visible
   * identifiers and neither list repeats one: then it says every visible record
   * is selected.
   */
  lemma AllSelectedWhenConsistent(sel: seq<ArchiveRecord>, visible: seq<ArchiveRecord>)
    requires UniqueIds(sel) && UniqueIds(visible)
    requires forall x :: x in sel ==> HasId(visible, x.id)
    ensures AllSelected(sel, visible) <==> forall y :: y in visible ==> HasId(sel, y.id)
  {
    IdsCardinality(sel);
    IdsCardinality(visible);
    assert Ids(sel) <= Ids(visible);
    if AllSelected(sel, visible) {
      SubsetSameSize(Ids(sel), Ids(visible));
      forall y | y in visible ensures HasId(sel, y.id) {
        assert y.id in Ids(visible);
      }
    }
    if forall y :: y in visible ==> HasId(sel, y.id) {
      forall id | id in Ids(visible) ensures id in Ids(sel) {
        var y :| y in visible && y.id == id;
        var x :| x in sel && x.id == id;
      }
      assert Ids(visible) == Ids(sel);
    }
  }

  /**
   * Without that consistency the indicator misreports: select the meeting minutes,
   * switch the filter to "pdf", and the header shows checked although the only
   * visible record is not selected.
   */
  lemma StaleSelectionShowsAllSelected(key: SortKey, o: SortOrder)
    ensures var visible := Derive(MockArchives, "pdf", key, o);
      var sel := Toggle([], MockArchives[1]);
      AllSelected(sel, visible) && visible != [] && forall y :: y in visible ==> !HasId(sel, y.id)
  {
    PdfFilterScenario(key, o);
  }

  /**
   * The header is a controlled checkbox, so a click delivers the opposite of what
   * it shows. In the stale-selection state it shows checked, so the click
   * deselects everything instead of selecting the visible record.
   */
  lemma StaleSelectionHeaderClickClears(key: SortKey, o: SortOrder)
    ensures var visible := Derive(MockArchives, "pdf", key, o);
      var sel := Toggle([], MockArchives[1]);
      HeaderChange(!AllSelected(sel, visible), visible) == []
  {
    StaleSelectionShowsAllSelected(key, o);
  }

  /** The seed set repeats no identifier, so it meets the dashboard's requirement. */
  lemma MockArchivesUniqueIds()
    ensures UniqueIds(MockArchives)
  {
  }

  lemma {:induction false} UniqueIdsCount(s: seq<ArchiveRecord>, x: ArchiveRecord)
    requires UniqueIds(s)
    ensures multiset(s)[x] <= 1
  {
    if s != [] {
      UniqueIdsCount(s[1..], x);
      assert s == [s[0]] + s[1..];
      if s[0] == x {
        assert x !in s[1..] by {
          forall j | 0 <= j < |s[1..]| ensures s[1..][j] != x {
            assert s[1..][j] == s[j + 1];
          }
        }
      }
    }
  }

  /** A rearrangement of part of a list without repeated identifiers repeats none either. */
  lemma SubMultisetKeepsUniqueIds(r: seq<ArchiveRecord>, s: seq<ArchiveRecord>)
    requires UniqueIds(s) && multiset(r) <= multiset(s)
    ensures UniqueIds(r)
  {
    forall i, j | 0 <= i < j < |r| ensures r[i].id != r[j].id {
      if r[i] == r[j] {
        assert r == r[..j] + r[j..];
        assert r[i] in r[..j] && r[j] in r[j..];
        assert multiset(r)[r[i]] >= 2;
        UniqueIdsCount(s, r[i]);
      } else {
        assert r[i] in multiset(s) && r[j] in multiset(s);
        var i' :| 0 <= i' < |s| && s[i'] == r[i];
        var j' :| 0 <= j' < |s| && s[j'] == r[j];
      }
    }
  }

  /** The derived list repeats no identifier when the records it is derived from repeat none. */
  lemma DeriveKeepsUniqueIds(all: seq<ArchiveRecord>, filter: string, key: SortKey, o: SortOrder)
    requires UniqueIds(all)
    ensures UniqueIds(Derive(all, filter, key, o))
  {
    SubMultisetKeepsUniqueIds(Derive(all, filter, key, o), all);
  }
}
