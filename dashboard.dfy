/**
 * The dashboard component's state and handlers. Each field is one `useState`
 * slot (the language field stands for the shared locale store); each method is
 * one event handler; the derived archive list and the header checkbox state are
 * functions of the fields, recomputed on every render.
 */
module Dashboard {
  import opened Archives
  import opened Selection
  import opened Submission

  datatype Language = Fr | En

  /** The language button switches fr to en and anything else to fr. */
  function ToggledLanguage(l: Language): (r: Language)
    ensures r != l
  {
    if l == Fr then En else Fr
  }

  /** The name the export's synthetic download link carries. */
  const ExportFileName: string := "archives.zip"

  /** The values the export loop writes, 0, 10, ..., 100 for its first k iterations. */
  function LoopWrites(k: nat): (w: seq<int>)
    ensures |w| == k && forall j :: 0 <= j < k ==> w[j] == 10 * j
  {
    seq(k, j => 10 * j)
  }

  /** Every value an export writes to the progress slot: the initial 0, then the loop's eleven. */
  function ExportTrace(): (t: seq<int>)
    ensures |t| == 12 && t[0] == 0 && t[1..] == LoopWrites(11)
  {
    [0] + LoopWrites(11)
  }

  /** The trace starts at 0, never goes down, stays within 0..100, ends at 100 and visits every tenth. */
  lemma ExportTraceShape()
    ensures var t := ExportTrace();
      |t| == 12 && t[0] == 0 && t[|t| - 1] == 100 &&
      (forall i, j :: 0 <= i < j < |t| ==> t[i] <= t[j]) &&
      (forall i :: 0 <= i < |t| ==> 0 <= t[i] <= 100 && t[i] % 10 == 0) &&
      (forall p :: 0 <= p <= 100 && p % 10 == 0 ==> p in t)
  {
    var t := ExportTrace();
    forall p | 0 <= p <= 100 && p % 10 == 0 ensures p in t {
      assert t[p / 10 + 1] == p;
    }
  }

  class App {
    /** The records the list is derived from: any list with distinct identifiers (the page passes MockArchives). */
    const archives: seq<ArchiveRecord>

    var language: Language
    var filterType: string
    var sortBy: SortKey
    var sortOrder: SortOrder
    var selectedArchives: seq<ArchiveRecord>
    var showExportProgress: bool
    var exportProgress: int
    var newArchive: Draft
    var qrCodeData: string
    var showQrCode: bool
    var showAddArchive: bool

    /** The names of the synthetic downloads fired so far, oldest first. */
    var downloads: seq<string>
    /** Every value written to exportProgress so far, oldest first. */
    var progressWrites: seq<int>

    /** The selection never holds one identifier twice. */
    ghost predicate Valid()
      reads this
    {
      UniqueIds(archives) && UniqueIds(selectedArchives)
    }

    /** The state on first render. */
    constructor(archives: seq<ArchiveRecord>)
      requires UniqueIds(archives)
      ensures Valid()
      ensures this.archives == archives
      ensures language == Fr && filterType == AllTypes && sortBy == ByDate && sortOrder == Descending
      ensures selectedArchives == [] && !showExportProgress && exportProgress == 0
      ensures newArchive == EmptyDraft && qrCodeData == "" && !showQrCode && !showAddArchive
      ensures downloads == [] && progressWrites == []
    {
      this.archives := archives;
      language := Fr;
      filterType := AllTypes;
      sortBy := ByDate;
      sortOrder := Descending;
      selectedArchives := [];
      showExportProgress := false;
      exportProgress := 0;
      newArchive := EmptyDraft;
      qrCodeData := "";
      showQrCode := false;
      showAddArchive := false;
      downloads := [];
      progressWrites := [];
    }

    /** The list the archive table shows. */
    function FilteredArchives(): (r: seq<ArchiveRecord>)
      reads this
      ensures forall x :: x in r <==> x in archives && Matches(filterType, x)
      ensures Sorted(sortBy, sortOrder, r) && Stable(sortBy, r, FilterByType(archives, filterType))
    {
      DeriveOrdered(archives, filterType, sortBy, sortOrder);
      Derive(archives, filterType, sortBy, sortOrder)
    }

    /** The header checkbox's checked state: the selection is as long as the shown list. */
    function HeaderChecked(): (b: bool)
      reads this
      ensures b <==> |selectedArchives| == |FilteredArchives()|
    {
      AllSelected(selectedArchives, FilteredArchives())
    }

    method ToggleLanguage()
      modifies this`language
      ensures language == ToggledLanguage(old(language))
    {
      language := ToggledLanguage(language);
    }

    method ToggleSortOrder()
      modifies this`sortOrder
      ensures sortOrder == ToggleOrder(old(sortOrder))
      ensures FilteredArchives() == Derive(archives, filterType, sortBy, ToggleOrder(old(sortOrder)))
    {
      sortOrder := ToggleOrder(sortOrder);
    }

    method SetFilterType(filter: string)
      modifies this`filterType
      ensures filterType == filter
    {
      filterType := filter;
    }

    method SetSortBy(key: SortKey)
      modifies this`sortBy
      ensures sortBy == key
    {
      sortBy := key;
    }

    /** A row checkbox changed. */
    method ToggleSelection(a: ArchiveRecord)
      requires Valid()
      modifies this`selectedArchives
      ensures Valid()
      ensures selectedArchives == Toggle(old(selectedArchives), a)
    {
      ToggleKeepsUniqueIds(selectedArchives, a);
      selectedArchives := Toggle(selectedArchives, a);
    }

    /** The header checkbox changed. */
    method HeaderCheckbox(checked: bool)
      requires Valid()
      modifies this`selectedArchives
      ensures Valid()
      ensures selectedArchives == HeaderChange(checked, FilteredArchives())
      ensures checked ==> HeaderChecked()
    {
      if checked {
        DeriveKeepsUniqueIds(archives, filterType, sortBy, sortOrder);
      }
      selectedArchives := HeaderChange(checked, FilteredArchives());
    }

    /**
     * The export button. With nothing selected it only alerts. Otherwise it shows
     * the progress modal, writes 0 and then 0, 10, ..., 100, fires one download
     * named "archives.zip", hides the modal and clears the selection.
     */
    method Export() returns (alerted: bool)
      requires Valid()
      modifies this`showExportProgress, this`exportProgress, this`selectedArchives
      modifies this`downloads, this`progressWrites
      ensures Valid()
      ensures alerted <==> old(selectedArchives) == []
      ensures alerted ==> unchanged(this)
      ensures !alerted ==>
        progressWrites == old(progressWrites) + ExportTrace() && exportProgress == 100 &&
        downloads == old(downloads) + [ExportFileName] &&
        !showExportProgress && selectedArchives == []
    {
      if |selectedArchives| == 0 {
        return true;
      }
      alerted := false;
      showExportProgress := true;
      exportProgress := 0;
      progressWrites := progressWrites + [0];
      var i := 0;
      while i <= 100
        invariant 0 <= i <= 110 && i % 10 == 0
        invariant showExportProgress && downloads == old(downloads)
        invariant progressWrites == old(progressWrites) + [0] + LoopWrites(i / 10)
        invariant exportProgress == if i == 0 then 0 else i - 10
      {
        exportProgress := i;
        progressWrites := progressWrites + [i];
        assert LoopWrites(i / 10 + 1) == LoopWrites(i / 10) + [i];
        i := i + 10;
      }
      downloads := downloads + [ExportFileName];
      showExportProgress := false;
      selectedArchives := [];
    }

    /** A file was picked (`files[0]`, absent when the picker was cancelled). */
    method SetFile(file: Option<FileInfo>)
      modifies this`newArchive
      ensures newArchive == old(newArchive).(file := file)
    {
      newArchive := newArchive.(file := file);
    }

    /**
     * The form was submitted: builds the record from the draft and shows the QR
     * modal with the token. The draft and the add-archive modal are left as they
     * are; only closing the QR modal resets them.
     */
    method SubmitArchive(idNow: nat, dateNow: nat, qrNow: nat) returns (data: SubmittedArchive)
      modifies this`qrCodeData, this`showQrCode
      ensures data == Synthesize(newArchive, idNow, dateNow)
      ensures qrCodeData == QrPayload(newArchive.title, qrNow) && showQrCode
    {
      data := Synthesize(newArchive, idNow, dateNow);
      qrCodeData := QrPayload(data.title, qrNow);
      showQrCode := true;
    }

    /** The QR modal's close button: hides both modals and empties the draft. */
    method CloseQrModal()
      modifies this`showQrCode, this`showAddArchive, this`newArchive
      ensures !showQrCode && !showAddArchive && newArchive == EmptyDraft
    {
      showQrCode := false;
      showAddArchive := false;
      newArchive := EmptyDraft;
    }
  }

  /**
   * A walk through the export flow from the first render, from what the handlers
   * promise: exporting nothing only alerts; after the header checkbox selects the
   * whole list, one export fires one download and empties the selection.
   */
  method ExportWalkthrough(archives: seq<ArchiveRecord>)
    requires UniqueIds(archives) && archives != []
  {
    var app := new App(archives);
    var alerted := app.Export();
    assert alerted && app.downloads == [];
    app.HeaderCheckbox(true);
    assert multiset(app.selectedArchives) == multiset(archives);
    assert app.selectedArchives != [];
    alerted := app.Export();
    assert !alerted && app.downloads == [ExportFileName] && app.selectedArchives == [];
  }
}
