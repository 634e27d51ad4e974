/** The background worker's copy of the export (background.js): it sorts the
    caller's array of notes in place and builds the same document as the
    popup, with its own copies of the timestamp and file-name helpers. */
module Background {
  import opened NoteModel
  import Popup

  /** The worker's formatTimestamp: the same text as the popup's. */
  function FormatTimestamp(seconds: nat): (r: string)
    ensures r == Popup.FormatTimestamp(seconds)
  {
    Popup.PadStart(Popup.NatToDecimal(seconds / 60), 2) + ":" + Popup.PadStart(Popup.NatToDecimal(seconds % 60), 2)
  }

  /** The worker's sanitizeFilename: the same name as the popup's. */
  function SanitizeFilename(name: string): (r: string)
    ensures r == Popup.SanitizeFilename(name)
  {
    Popup.Prefix(Popup.ToLowerCase(Popup.ReplaceNonAlnum(name)), 50)
  }

  /** `notes.sort((a, b) => a.timestamp - b.timestamp)` on the caller's array:
      a stable insertion sort by adjacent swaps. Since a stable sort's result
      is unique, it is the popup's sorted copy. */
  method SortByTimestamp(a: array<Note>)
    modifies a
    ensures Sorted(a[..])
    ensures multiset(a[..]) == multiset(old(a[..]))
    ensures SameTies(a[..], old(a[..]))
    ensures a[..] == StableSort(old(a[..]))
  {
    var i := 0;
    while i < a.Length
      invariant 0 <= i <= a.Length
      invariant Sorted(a[..i])
      invariant SameTies(a[..], old(a[..]))
    {
      InsertLast(a, i);
      i := i + 1;
    }
    assert a[..i] == a[..];
    SortedSameTiesIsStableSort(old(a[..]), a[..]);
    StableSortPermutation(old(a[..]));
  }

  /** One pass of the sort: a[i] moves left past every strictly later note,
      so the sorted prefix grows by one and ties keep their order. */
  method InsertLast(a: array<Note>, i: nat)
    requires i < a.Length && Sorted(a[..i])
    modifies a
    ensures Sorted(a[..i + 1])
    ensures SameTies(a[..], old(a[..]))
    ensures a[i + 1..] == old(a[i + 1..])
  {
    var j := i;
    while j > 0 && a[j - 1].timestamp > a[j].timestamp
      invariant 0 <= j <= i
      invariant forall p, q :: 0 <= p < q <= i && p != j && q != j ==> a[p].timestamp <= a[q].timestamp
      invariant forall q :: j < q <= i ==> a[j].timestamp < a[q].timestamp
      invariant SameTies(a[..], old(a[..]))
      invariant a[i + 1..] == old(a[i + 1..])
    {
      ghost var prev := a[..];
      a[j - 1], a[j] := a[j], a[j - 1];
      assert a[..] == prev[j - 1 := prev[j]][j := prev[j - 1]];
      SwapKeepsTies(prev, j);
      j := j - 1;
    }
  }

  /** generateMarkdown(notes, videoTitle): the caller's array ends up stably
      sorted, and the document is the popup's for the same notes and title.
      There is no empty guard: no notes give just the header. */
  method GenerateMarkdown(notes: array<Note>, videoTitle: string) returns (md: string)
    modifies notes
    ensures notes[..] == StableSort(old(notes[..]))
    ensures Sorted(notes[..]) && multiset(notes[..]) == multiset(old(notes[..]))
    ensures SameTies(notes[..], old(notes[..]))
    ensures md == Popup.Markdown(videoTitle, old(notes[..]))
  {
    md := "# Notes \U{2013} " + videoTitle + "\n\n";
    SortByTimestamp(notes);
    ghost var sorted := notes[..];
    var i := 0;
    while i < notes.Length
      invariant 0 <= i <= notes.Length
      invariant notes[..] == sorted
      invariant md == Popup.Header(videoTitle) + Popup.Sections(notes[..i])
    {
      var note := notes[i];
      ghost var before := md;
      var timeStr := FormatTimestamp(note.timestamp);
      md := md + ("## \U{23F1} " + timeStr + "\n");
      if note.isCode {
        md := md + ("```js\n" + note.content + "\n```\n\n");
      } else {
        md := md + (note.content + "\n\n");
      }
      Popup.SectionAppended(before, note, timeStr);
      Popup.SectionsExtend(Popup.Header(videoTitle), notes[..], i);
      assert notes[..][..i + 1] == notes[..i + 1] && notes[..][..i] == notes[..i];
      i := i + 1;
    }
    assert notes[..i] == notes[..];
  }

  /** The exportNotes request: the document and "notes-<sanitized title>.md". */
  method ExportNotes(notes: array<Note>, videoTitle: string) returns (response: Popup.ExportFile)
    modifies notes
    ensures notes[..] == StableSort(old(notes[..]))
    ensures response.markdown == Popup.Markdown(videoTitle, old(notes[..]))
    ensures response.filename == "notes-" + SanitizeFilename(videoTitle) + ".md"
  {
    var markdown := GenerateMarkdown(notes, videoTitle);
    response := Popup.ExportFile(markdown, "notes-" + SanitizeFilename(videoTitle) + ".md");
  }
}
