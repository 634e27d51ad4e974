/** The popup's note collection (popup/popup.js): the notes of the open
    video, their persistence under "notes_" + videoId in a key-value store,
    and the Markdown export. */
module Popup {
  import opened NoteModel

  datatype Option<T> = None | Some(value: T)

  /** What the page reports about the open video. */
  datatype VideoInfo = VideoInfo(videoId: string, videoTitle: string, currentTime: nat, duration: nat)

  /** A file offered for download: its text and its name. */
  datatype ExportFile = ExportFile(markdown: string, filename: string)

  // ---------------------------------------------------------------------------
  // Trimming of the note input (String.prototype.trim)
  // ---------------------------------------------------------------------------

  /** The white space trim removes, restricted to the ASCII set. */
  predicate IsWhitespace(c: char) {
    c == ' ' || c == '\t' || c == '\n' || c == '\r' || c == '\U{000B}' || c == '\U{000C}'
  }

  function TrimStart(s: string): (r: string)
    ensures |r| <= |s| && r == s[|s| - |r|..]
    ensures forall k :: 0 <= k < |s| - |r| ==> IsWhitespace(s[k])
    ensures r != [] ==> !IsWhitespace(r[0])
  {
    if s != [] && IsWhitespace(s[0]) then TrimStart(s[1..]) else s
  }

  function TrimEnd(s: string): (r: string)
    ensures |r| <= |s| && r == s[..|r|]
    ensures forall k :: |r| <= k < |s| ==> IsWhitespace(s[k])
    ensures r != [] ==> !IsWhitespace(r[|r| - 1])
  {
    if s != [] && IsWhitespace(s[|s| - 1]) then TrimEnd(s[..|s| - 1]) else s
  }

  /** `r` sits at offset `i` of `s` with nothing but white space before and
      after it. */
  predicate TrimmedAt(s: string, i: nat, r: string)
    requires i + |r| <= |s|
  {
    r == s[i..i + |r|] &&
    (forall k :: 0 <= k < i ==> IsWhitespace(s[k])) &&
    (forall k :: i + |r| <= k < |s| ==> IsWhitespace(s[k]))
  }

  /** Trimming the front and then the back leaves a slice with only white
      space around it. */
  lemma TrimSlice(s: string, front: string, r: string)
    requires |front| <= |s| && front == s[|s| - |front|..]
    requires forall k :: 0 <= k < |s| - |front| ==> IsWhitespace(s[k])
    requires |r| <= |front| && r == front[..|r|]
    requires forall k :: |r| <= k < |front| ==> IsWhitespace(front[k])
    ensures |s| - |front| + |r| <= |s| && TrimmedAt(s, |s| - |front|, r)
  {
    var i := |s| - |front|;
    assert r == s[i..i + |r|];
    forall k | i + |r| <= k < |s| ensures IsWhitespace(s[k]) {
      assert s[k] == front[k - i];
    }
  }

  /** Trimmed content is the input with its leading and trailing white space
      removed: a slice of the input with only white space around it. It is
      empty exactly when the input is all white space; otherwise it neither
      starts nor ends with white space. */
  function Trim(s: string): (r: string)
    ensures exists i :: 0 <= i <= |s| - |r| && TrimmedAt(s, i, r)
    ensures r == [] <==> forall k :: 0 <= k < |s| ==> IsWhitespace(s[k])
    ensures r != [] ==> !IsWhitespace(r[0]) && !IsWhitespace(r[|r| - 1])
  {
    var front := TrimStart(s);
    var r := TrimEnd(front);
    TrimSlice(s, front, r);
    assert r == [] ==> front == [];
    assert r != [] ==> !IsWhitespace(r[0]) by {
      if r != [] { assert r[0] == front[0]; }
    }
    r
  }

  lemma TrimIdempotent(s: string)
    ensures Trim(Trim(s)) == Trim(s)
  {
    var r := Trim(s);
    if r != [] {
      assert TrimStart(r) == r;
      assert TrimEnd(r) == r;
    }
  }

  // ---------------------------------------------------------------------------
  // Decimal digits and formatTimestamp
  // ---------------------------------------------------------------------------

  predicate IsDigit(c: char) {
    '0' <= c <= '9'
  }

  predicate AllDigits(s: string) {
    forall k :: 0 <= k < |s| ==> IsDigit(s[k])
  }

  function DigitChar(d: nat): (c: char)
    requires d < 10
    ensures IsDigit(c) && c as int - '0' as int == d
  {
    "0123456789"[d]
  }

  /** The number a string of decimal digits denotes. */
  function DecimalValue(s: string): nat
    requires AllDigits(s)
  {
    if s == [] then 0
    else DecimalValue(s[..|s| - 1]) * 10 + (s[|s| - 1] as int - '0' as int)
  }

  /** Number.prototype.toString() for a non-negative integer. */
  function NatToDecimal(n: nat): (r: string)
    ensures r != []
  {
    if n < 10 then [DigitChar(n)] else NatToDecimal(n / 10) + [DigitChar(n % 10)]
  }

  /** toString gives the shortest decimal form: digits only, denoting n,
      one digit exactly below ten and no leading zero. */
  lemma {:induction false} NatToDecimalSpec(n: nat)
    ensures var r := NatToDecimal(n);
      r != [] && AllDigits(r) && DecimalValue(r) == n && (|r| == 1 <==> n < 10) &&
      (|r| == 1 || r[0] != '0')
  {
    if n >= 10 {
      NatToDecimalSpec(n / 10);
      var r := NatToDecimal(n);
      assert r[..|r| - 1] == NatToDecimal(n / 10);
      assert r[0] == NatToDecimal(n / 10)[0];
    }
  }

  /** String.prototype.padStart(width, '0'). */
  function PadStart(s: string, width: nat): (r: string)
    ensures |r| == if |s| >= width then |s| else width
    decreases width - |s|
  {
    if |s| >= width then s else PadStart(['0'] + s, width)
  }

  /** Zeros are added in front of `s` until it is `width` long. */
  lemma {:induction false} PadStartSpec(s: string, width: nat)
    ensures var r := PadStart(s, width);
      |r| == (if |s| >= width then |s| else width) &&
      r[|r| - |s|..] == s &&
      forall k :: 0 <= k < |r| - |s| ==> r[k] == '0'
    decreases width - |s|
  {
    if |s| < width {
      PadStartSpec(['0'] + s, width);
      var r := PadStart(s, width);
      assert r[|r| - |s|..] == (r[|r| - |s| - 1..])[1..];
    }
  }

  /** Leading zeros do not change the value of a digit string. */
  lemma {:induction false} LeadingZero(s: string)
    requires AllDigits(s)
    ensures AllDigits(['0'] + s) && DecimalValue(['0'] + s) == DecimalValue(s)
  {
    if s != [] {
      var z := ['0'] + s;
      assert z[..|z| - 1] == ['0'] + s[..|s| - 1];
      LeadingZero(s[..|s| - 1]);
    }
  }

  /** padStart(2, '0') of a decimal number: at least two digits, same value. */
  lemma PadStartDecimal(n: nat)
    ensures var r := PadStart(NatToDecimal(n), 2);
      AllDigits(r) && DecimalValue(r) == n && |r| == (if n < 10 then 2 else |NatToDecimal(n)|)
  {
    NatToDecimalSpec(n);
    if n < 10 {
      LeadingZero(NatToDecimal(n));
      assert PadStart(NatToDecimal(n), 2) == ['0'] + NatToDecimal(n);
    }
  }

  /** formatTimestamp: "MM:SS", seconds zero-padded to two digits, minutes
      zero-padded to at least two digits and never capped (no hour field). */
  function FormatTimestamp(seconds: nat): (r: string)
    ensures |r| >= 5 && r[|r| - 3] == ':'
  {
    NatToDecimalWidth(seconds % 60);
    PadStart(NatToDecimal(seconds / 60), 2) + ":" + PadStart(NatToDecimal(seconds % 60), 2)
  }

  /** The minutes field, the ':' and the two-digit seconds field; reading the
      two fields back gives seconds / 60 and seconds % 60, and from ten
      minutes on the minutes field has no leading zero. */
  lemma FormatTimestampSpec(seconds: nat)
    ensures var r := FormatTimestamp(seconds);
      |r| >= 5 && r[|r| - 3] == ':' &&
      AllDigits(r[..|r| - 3]) && AllDigits(r[|r| - 2..]) &&
      DecimalValue(r[..|r| - 3]) == seconds / 60 &&
      DecimalValue(r[|r| - 2..]) == seconds % 60 &&
      (seconds / 60 >= 10 ==> r[0] != '0')
  {
    var mins := PadStart(NatToDecimal(seconds / 60), 2);
    var secs := PadStart(NatToDecimal(seconds % 60), 2);
    PadStartDecimal(seconds / 60);
    PadStartDecimal(seconds % 60);
    NatToDecimalSpec(seconds / 60);
    if seconds / 60 >= 10 {
      PadStartSpec(NatToDecimal(seconds / 60), 2);
      assert mins == NatToDecimal(seconds / 60);
    }
    var r := mins + ":" + secs;
    assert r[..|r| - 3] == mins && r[|r| - 2..] == secs;
  }

  /** Reading the two fields back gives the number of seconds. */
  lemma FormatTimestampRoundTrip(seconds: nat)
    ensures var r := FormatTimestamp(seconds);
      |r| >= 5 && AllDigits(r[..|r| - 3]) && AllDigits(r[|r| - 2..]) &&
      DecimalValue(r[..|r| - 3]) * 60 + DecimalValue(r[|r| - 2..]) == seconds
  {
    FormatTimestampSpec(seconds);
  }

  /** Two digits exactly for 10..99, at least three from 100 on. */
  lemma NatToDecimalWidth(n: nat)
    ensures 10 <= n < 100 ==> |NatToDecimal(n)| == 2
    ensures n >= 100 ==> |NatToDecimal(n)| >= 3
  {
    if n >= 10 {
      NatToDecimalSpec(n / 10);
      if n >= 100 {
        NatToDecimalSpec(n / 100);
      }
    }
  }

  /** The text is exactly five characters until the minutes reach 100. */
  lemma FormatTimestampWidth(seconds: nat)
    ensures |FormatTimestamp(seconds)| == 5 <==> seconds < 6000
  {
    var m, sec := seconds / 60, seconds % 60;
    PadStartDecimal(m);
    PadStartDecimal(sec);
    NatToDecimalWidth(m);
    NatToDecimalWidth(sec);
    assert m < 100 <==> seconds < 6000;
    assert |FormatTimestamp(seconds)| == |PadStart(NatToDecimal(m), 2)| + 1 + |PadStart(NatToDecimal(sec), 2)|;
  }

  lemma FormatTimestampExamples()
    ensures FormatTimestamp(125) == "02:05"
    ensures FormatTimestamp(59) == "00:59"
  {
    assert NatToDecimal(59) == NatToDecimal(5) + [DigitChar(9)];
  }

  /** From 100 minutes on the minutes field simply grows: 6000 s is "100:00". */
  lemma FormatTimestampHundredMinutes()
    ensures FormatTimestamp(6000) == "100:00"
  {
    assert NatToDecimal(100) == NatToDecimal(10) + [DigitChar(0)];
    assert NatToDecimal(10) == NatToDecimal(1) + [DigitChar(0)];
  }

  // ---------------------------------------------------------------------------
  // sanitizeFilename and truncateText
  // ---------------------------------------------------------------------------

  predicate IsAsciiAlnum(c: char) {
    'a' <= c <= 'z' || 'A' <= c <= 'Z' || '0' <= c <= '9'
  }

  /** The characters a sanitized file name is made of: [a-z0-9-]. */
  predicate IsFilenameChar(c: char) {
    'a' <= c <= 'z' || '0' <= c <= '9' || c == '-'
  }

  function LowerAscii(c: char): char {
    if 'A' <= c <= 'Z' then (c as int - 'A' as int + 'a' as int) as char else c
  }

  /** name.replace(/[^a-z0-9]/gi, '-'): every character that is not an ASCII
      letter or digit becomes '-', one for one. */
  function ReplaceNonAlnum(s: string): (r: string)
    ensures |r| == |s|
    ensures forall k :: 0 <= k < |r| ==> r[k] == if IsAsciiAlnum(s[k]) then s[k] else '-'
    ensures forall k :: 0 <= k < |r| ==> (r[k] == '-' || r[k] == s[k]) && IsAsciiAlnum(r[k]) == IsAsciiAlnum(s[k])
  {
    seq(|s|, k requires 0 <= k < |s| => if IsAsciiAlnum(s[k]) then s[k] else '-')
  }

  /** toLowerCase on a string whose letters are all ASCII. */
  function ToLowerCase(s: string): (r: string)
    ensures |r| == |s|
    ensures forall k :: 0 <= k < |r| ==> r[k] == LowerAscii(s[k])
    ensures forall k :: 0 <= k < |r| ==> !('A' <= r[k] <= 'Z') && (IsAsciiAlnum(r[k]) <==> IsAsciiAlnum(s[k]))
  {
    seq(|s|, k requires 0 <= k < |s| => LowerAscii(s[k]))
  }

  /** String.prototype.substring(0, n). */
  function Prefix(s: string, n: nat): (r: string)
    ensures |r| == if |s| <= n then |s| else n
    ensures r == s[..|r|]
  {
    if |s| <= n then s else s[..n]
  }

  function SanitizeFilename(name: string): (r: string)
    ensures |r| == if |name| <= 50 then |name| else 50
    ensures forall k :: 0 <= k < |r| ==>
      r[k] == if IsAsciiAlnum(name[k]) then LowerAscii(name[k]) else '-'
    ensures forall k :: 0 <= k < |r| ==> IsFilenameChar(r[k])
  {
    Prefix(ToLowerCase(ReplaceNonAlnum(name)), 50)
  }

  lemma SanitizeFilenameIdempotent(name: string)
    ensures SanitizeFilename(SanitizeFilename(name)) == SanitizeFilename(name)
  {
    var r := SanitizeFilename(name);
    var r' := SanitizeFilename(r);
    assert |r'| == |r|;
    forall k | 0 <= k < |r| ensures r'[k] == r[k] {
      assert IsFilenameChar(r[k]);
    }
  }

  /** Runs of separators are not collapsed: each character maps to one. */
  lemma SanitizeFilenameExample()
    ensures SanitizeFilename("C++ Tutorial: Pointers!") == "c---tutorial--pointers-"
  {
    var r := SanitizeFilename("C++ Tutorial: Pointers!");
    assert |r| == 23;
    assert forall k | 0 <= k < 23 :: r[k] == "c---tutorial--pointers-"[k];
  }

  /** truncateText: short text is kept, longer text is cut and marked "...". */
  function TruncateText(text: string, maxLength: nat): (r: string)
    ensures |text| <= maxLength ==> r == text
    ensures |text| > maxLength ==>
      |r| == maxLength + 3 && r[..maxLength] == text[..maxLength] && r[maxLength..] == "..."
  {
    if |text| <= maxLength then text else text[..maxLength] + "..."
  }

  // ---------------------------------------------------------------------------
  // Storage keys
  // ---------------------------------------------------------------------------

  function StorageKey(videoId: string): (k: string)
    ensures |k| == |videoId| + 6 && k[..6] == "notes_" && k[6..] == videoId
  {
    "notes_" + videoId
  }

  /** Two videos never share a storage entry. */
  lemma StorageKeyInjective(a: string, b: string)
    ensures StorageKey(a) == StorageKey(b) <==> a == b
  {
    if StorageKey(a) == StorageKey(b) {
      assert a == StorageKey(a)[6..];
      assert b == StorageKey(b)[6..];
    }
  }

  /** `result[storageKey] || []`: a missing entry reads as no notes. */
  function Lookup(store: map<string, seq<Note>>, key: string): (r: seq<Note>)
    ensures key !in store ==> r == []
    ensures key in store ==> r == store[key]
  {
    if key in store then store[key] else []
  }

  /** Saving the notes of one video leaves what loads for any other video as it was. */
  lemma SaveIsolated(store: map<string, seq<Note>>, a: string, b: string, notes: seq<Note>)
    requires a != b
    ensures Lookup(store[StorageKey(a) := notes], StorageKey(b)) == Lookup(store, StorageKey(b))
    ensures Lookup(store[StorageKey(a) := notes], StorageKey(a)) == notes
  {
    StorageKeyInjective(a, b);
  }

  // ---------------------------------------------------------------------------
  // Deleting by id (notes.filter(note => note.id !== id))
  // ---------------------------------------------------------------------------

  function RemoveId(s: seq<Note>, id: int): (r: seq<Note>)
    ensures |r| <= |s|
    ensures forall k :: 0 <= k < |r| ==> r[k].id != id
    ensures multiset(r) <= multiset(s)
  {
    if s == [] then []
    else
      assert s == [s[0]] + s[1..];
      (if s[0].id == id then [] else [s[0]]) + RemoveId(s[1..], id)
  }

  /** Deleting an id no note carries changes nothing. */
  lemma {:induction false} RemoveIdAbsent(s: seq<Note>, id: int)
    requires forall k :: 0 <= k < |s| ==> s[k].id != id
    ensures RemoveId(s, id) == s
  {
    if s != [] {
      RemoveIdAbsent(s[1..], id);
      assert s == [s[0]] + s[1..];
    }
  }

  /** Filtering works piecewise, so the notes kept stay in their relative order. */
  lemma {:induction false} RemoveIdAppend(a: seq<Note>, b: seq<Note>, id: int)
    ensures RemoveId(a + b, id) == RemoveId(a, id) + RemoveId(b, id)
  {
    if a == [] {
      assert a + b == b;
    } else {
      assert (a + b)[1..] == a[1..] + b;
      RemoveIdAppend(a[1..], b, id);
    }
  }

  /** Every note with another id survives, as many times as it occurred. */
  lemma {:induction false} RemoveIdKeepsOthers(s: seq<Note>, id: int, n: Note)
    requires n.id != id
    ensures multiset(RemoveId(s, id))[n] == multiset(s)[n]
  {
    if s != [] {
      RemoveIdKeepsOthers(s[1..], id, n);
      assert s == [s[0]] + s[1..];
    }
  }

  /** Deleting an absent id from freshly loaded notes rewrites the entry with
      the same notes: what loads for every key stays the same (the entry may
      be created, holding no notes, where there was none). */
  lemma DeleteAbsentKeepsStore(store: map<string, seq<Note>>, key: string, id: int)
    requires forall k :: 0 <= k < |Lookup(store, key)| ==> Lookup(store, key)[k].id != id
    ensures forall k :: Lookup(store[key := RemoveId(Lookup(store, key), id)], k) == Lookup(store, k)
  {
    RemoveIdAbsent(Lookup(store, key), id);
  }

  // ---------------------------------------------------------------------------
  // Markdown export
  // ---------------------------------------------------------------------------

  function Header(title: string): string {
    "# Notes \U{2013} " + title + "\n\n"
  }

  function Heading(n: Note): string {
    "## \U{23F1} " + FormatTimestamp(n.timestamp) + "\n"
  }

  /** A code note goes in a js fence, a prose note is a plain paragraph. */
  function Body(n: Note): string {
    if n.isCode then "```js\n" + n.content + "\n```\n\n" else n.content + "\n\n"
  }

  function Section(n: Note): string {
    Heading(n) + Body(n)
  }

  /** The texts joined end to end. */
  function Concat(parts: seq<string>): string {
    if parts == [] then "" else Concat(parts[..|parts| - 1]) + parts[|parts| - 1]
  }

  lemma {:induction false} ConcatAppend(p: seq<string>, q: seq<string>)
    ensures Concat(p + q) == Concat(p) + Concat(q)
  {
    if q == [] {
      assert p + q == p;
    } else {
      assert (p + q)[..|p + q| - 1] == p + q[..|q| - 1];
      ConcatAppend(p, q[..|q| - 1]);
    }
  }

  /** The section of each note, in the order given. */
  function SectionTexts(s: seq<Note>): (r: seq<string>)
    ensures |r| == |s|
  {
    seq(|s|, k requires 0 <= k < |s| => Section(s[k]))
  }

  function Sections(s: seq<Note>): string {
    Concat(SectionTexts(s))
  }

  /** The exported document: the header, then one section per note in stable
      timestamp order. The notes themselves are not reordered. */
  function Markdown(title: string, notes: seq<Note>): (md: string)
    ensures |Header(title)| <= |md| && md[..|Header(title)|] == Header(title)
    ensures notes == [] ==> md == Header(title)
  {
    Header(title) + Sections(StableSort(notes))
  }

  lemma SectionsAppend(a: seq<Note>, b: seq<Note>)
    ensures Sections(a + b) == Sections(a) + Sections(b)
  {
    assert SectionTexts(a + b) == SectionTexts(a) + SectionTexts(b);
    ConcatAppend(SectionTexts(a), SectionTexts(b));
  }

  /** The two appends generateMarkdown makes for one note add its section. */
  lemma SectionAppended(before: string, n: Note, timeStr: string)
    requires timeStr == FormatTimestamp(n.timestamp)
    ensures var heading := before + ("## \U{23F1} " + timeStr + "\n");
      (n.isCode ==> heading + ("```js\n" + n.content + "\n```\n\n") == before + Section(n)) &&
      (!n.isCode ==> heading + (n.content + "\n\n") == before + Section(n))
  {
  }

  lemma SectionsSingle(n: Note)
    ensures Sections([n]) == Section(n)
  {
    assert SectionTexts([n]) == [Section(n)];
    assert [Section(n)][..0] == [];
    assert Concat([Section(n)]) == Concat([]) + Section(n);
  }

  /** One more note of `s` adds its section to a document that ends with
      the sections of the notes before it. */
  lemma SectionsExtend(header: string, s: seq<Note>, i: nat)
    requires i < |s|
    ensures header + Sections(s[..i + 1]) == (header + Sections(s[..i])) + Section(s[i])
  {
    assert s[..i + 1] == s[..i] + [s[i]];
    SectionsAppend(s[..i], [s[i]]);
    SectionsSingle(s[i]);
    AppendAssoc(header, Sections(s[..i]), Section(s[i]));
  }

  /** Regrouping of appends, used to steer the proofs above. */
  lemma AppendAssoc(a: string, b: string, c: string)
    ensures a + (b + c) == (a + b) + c
  {
  }

  /** The document only depends on the order of notes that share a timestamp. */
  lemma MarkdownSameTies(title: string, a: seq<Note>, b: seq<Note>)
    requires SameTies(a, b)
    ensures Markdown(title, a) == Markdown(title, b)
  {
    StableSortSorted(a);
    StableSortSorted(b);
    StableSortSameTies(a);
    StableSortSameTies(b);
    SortedStableUnique(StableSort(a), StableSort(b));
  }

  /** A note no earlier than every other adds exactly its section at the end. */
  lemma MarkdownAppendLatest(title: string, notes: seq<Note>, n: Note)
    requires forall k :: 0 <= k < |notes| ==> notes[k].timestamp <= n.timestamp
    ensures Markdown(title, notes + [n]) == Markdown(title, notes) + Section(n)
  {
    StableSortAppendLatest(notes, n);
    SectionsAppend(StableSort(notes), [n]);
    SectionsSingle(n);
    AppendAssoc(Header(title), Sections(StableSort(notes)), Section(n));
  }

  /** Notes added at 65 s (prose) and then at 10 s (code) export with the
      code note first. */
  lemma ExportScenario(title: string, prose: Note, code: Note)
    requires prose.timestamp == 65 && !prose.isCode
    requires code.timestamp == 10 && code.isCode
    ensures Markdown(title, [prose, code]) == Header(title) + Section(code) + Section(prose)
  {
    assert [prose, code][1..] == [code];
    assert StableSort([code]) == [code];
    assert Insert(prose, []) == [prose];
    assert Insert(prose, [code]) == [code] + Insert(prose, []);
    assert StableSort([prose, code]) == [code, prose];
    SectionsAppend([code], [prose]);
    SectionsSingle(code);
    SectionsSingle(prose);
    assert [code] + [prose] == [code, prose];
  }

  // ---------------------------------------------------------------------------
  // The popup's state
  // ---------------------------------------------------------------------------

  /** The popup session: the open video, the code-mode toggle, the notes of
      the open video and the key-value store they persist to. */
  class NotesController {
    var video: Option<VideoInfo>
    var isCodeMode: bool
    var notes: seq<Note>
    var store: map<string, seq<Note>>

    /** There are notes only while some video context is set, and a video
        context always has an id. The notes need not be the open video's:
        a reply naming another video replaces the context without reloading
        them, as the one-second poll of getVideoInfo does. */
    ghost predicate Valid()
      reads this
    {
      (notes != [] ==> video.Some?) && (video.Some? ==> video.value.videoId != "")
    }

    /** The storage key of the open video, when there is one. */
    function Key(): (k: Option<string>)
      reads this
      ensures k.Some? <==> video.Some? && video.value.videoId != ""
      ensures k.Some? ==> k.value == StorageKey(video.value.videoId)
    {
      if video.Some? && video.value.videoId != "" then Some(StorageKey(video.value.videoId)) else None
    }

    constructor (store: map<string, seq<Note>>)
      ensures Valid()
      ensures video == None && !isCodeMode && notes == [] && this.store == store
    {
      video := None;
      isCodeMode := false;
      notes := [];
      this.store := store;
    }

    /** The state change of getVideoInfo: only a reply that names a video
        replaces the context; an error or no reply leaves it as it was. */
    method ReceiveVideoInfo(response: Option<VideoInfo>)
      requires Valid()
      modifies this`video
      ensures Valid()
      ensures video == if response.Some? && response.value.videoId != "" then response else old(video)
    {
      if response.Some? && response.value.videoId != "" {
        video := response;
      }
    }

    method ToggleCodeMode()
      modifies this`isCodeMode
      ensures isCodeMode == !old(isCodeMode)
    {
      isCodeMode := !isCodeMode;
    }

    /** loadNotes: the notes stored under the open video's key, or none. */
    method LoadNotes()
      requires Valid()
      modifies this`notes
      ensures Valid()
      ensures Key().Some? ==> notes == Lookup(store, Key().value)
      ensures Key().None? ==> notes == old(notes)
    {
      if Key().None? {
        return;
      }
      var storageKey := StorageKey(video.value.videoId);
      notes := Lookup(store, storageKey);
    }

    /** saveNotes: the whole collection overwrites the open video's entry;
        every other entry is untouched. */
    method SaveNotes()
      modifies this`store
      ensures Key().Some? ==> store == old(store)[Key().value := notes]
      ensures Key().None? ==> store == old(store)
    {
      if Key().None? {
        return;
      }
      var storageKey := StorageKey(video.value.videoId);
      store := store[storageKey := notes];
    }

    /** addNote: a note with the trimmed input, the current playback second
        and the current mode is appended and the collection saved; empty
        input or no open video changes nothing. */
    method AddNote(input: string, now: nat, id: int, createdAt: string)
      requires Valid()
      modifies this`notes, this`store
      ensures Valid()
      ensures Trim(input) == [] || old(video).None? ==> notes == old(notes) && store == old(store)
      ensures Trim(input) != [] && old(video).Some? ==>
        notes == old(notes) + [Note(id, Trim(input), now, isCodeMode, createdAt)] &&
        store == old(store)[Key().value := notes]
    {
      var content := Trim(input);
      if content == [] || video.None? {
        return;
      }
      var note := Note(id, content, now, isCodeMode, createdAt);
      notes := notes + [note];
      SaveNotes();
    }

    /** deleteNote: every note with that id goes, the rest keep their order,
        and the collection is saved. */
    method DeleteNote(id: int)
      requires Valid()
      modifies this`notes, this`store
      ensures Valid()
      ensures notes == RemoveId(old(notes), id)
      ensures Key().Some? ==> store == old(store)[Key().value := notes]
      ensures Key().None? ==> store == old(store)
    {
      notes := RemoveId(notes, id);
      SaveNotes();
    }

    /** clearNotes: nothing happens on an empty collection or without the
        user's confirmation; otherwise the entry is emptied, not removed. */
    method ClearNotes(confirmed: bool)
      requires Valid()
      modifies this`notes, this`store
      ensures Valid()
      ensures old(notes) == [] || !confirmed ==> notes == old(notes) && store == old(store)
      ensures old(notes) != [] && confirmed ==>
        notes == [] && Key().Some? && store == old(store)[Key().value := []]
    {
      if |notes| == 0 {
        return;
      }
      if confirmed {
        notes := [];
        SaveNotes();
      }
    }

    /** generateMarkdown: the header, then one section per note of a sorted
        copy of the collection. */
    method GenerateMarkdown() returns (md: string)
      requires video.Some?
      ensures md == Markdown(video.value.videoTitle, notes)
    {
      var title := video.value.videoTitle;
      md := "# Notes \U{2013} " + title + "\n\n";
      var sortedNotes := StableSort(notes);
      var i := 0;
      while i < |sortedNotes|
        invariant 0 <= i <= |sortedNotes|
        invariant md == Header(title) + Sections(sortedNotes[..i])
      {
        var note := sortedNotes[i];
        ghost var before := md;
        var timeStr := FormatTimestamp(note.timestamp);
        md := md + ("## \U{23F1} " + timeStr + "\n");
        if note.isCode {
          md := md + ("```js\n" + note.content + "\n```\n\n");
        } else {
          md := md + (note.content + "\n\n");
        }
        SectionAppended(before, note, timeStr);
        SectionsExtend(Header(title), sortedNotes, i);
        i := i + 1;
      }
      assert sortedNotes[..i] == sortedNotes;
    }

    /** exportNotes: nothing to export without notes; otherwise the document
        and the file name "notes-<sanitized title>.md". */
    method ExportNotes() returns (file: Option<ExportFile>)
      requires Valid()
      ensures file.None? <==> notes == []
      ensures file.Some? ==>
        file.value.markdown == Markdown(video.value.videoTitle, notes) &&
        file.value.filename == "notes-" + SanitizeFilename(video.value.videoTitle) + ".md"
    {
      if |notes| == 0 {
        return None;
      }
      var markdown := GenerateMarkdown();
      file := Some(ExportFile(markdown, "notes-" + SanitizeFilename(video.value.videoTitle) + ".md"));
    }
  }
}
