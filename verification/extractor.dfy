/** `read_text` and `load_files_from_uploader` of parsing/extractor.py: the
    routing of uploaded blobs to documents. The byte-level readers (PDF,
    Word, zip, text decoding) are parameters. */
module Extractor {
  import opened Wrappers
  import opened PyStr

  type Bytes = seq<bv8>

  /** An uploaded blob, an archive member, and an extracted document. */
  datatype Upload = Upload(name: string, data: Bytes)
  datatype ZipEntry = ZipEntry(path: string, data: Bytes)
  datatype Doc = Doc(name: string, text: string)

  /** The libraries behind the routing. `pdfPages` gives each page's text
      (`None` for a page without text); `pdfPages`, `docx` and `zipEntries`
      give `None` when the library raises; `decode` is the error-ignoring
      UTF-8 decode, which cannot fail. */
  datatype Readers = Readers(
    pdfPages: Bytes -> Option<seq<Option<string>>>,
    docx: Bytes -> Option<string>,
    decode: Bytes -> string,
    zipEntries: Bytes -> Option<seq<ZipEntry>>)

  /* ---- names ---- */

  /** Number of characters after the last `c`, or all of them. */
  function TailLength(s: string, c: char): (n: nat)
    ensures n <= |s|
    ensures forall k :: |s| - n <= k < |s| ==> s[k] != c
    ensures n < |s| ==> s[|s| - n - 1] == c
  {
    if s == [] || s[|s| - 1] == c then 0
    else TailLength(s[..|s| - 1], c) + 1
  }

  /** `Path(p).name`: what follows the last '/'. */
  function Basename(path: string): (r: string)
    ensures '/' !in r
    ensures EndsWith(path, r)
    ensures |r| < |path| ==> path[|path| - |r| - 1] == '/'
  {
    path[|path| - TailLength(path, '/')..]
  }

  lemma BasenameOfPlainName(name: string)
    requires '/' !in name
    ensures Basename(name) == name
  {
  }

  /** `Path(name).suffix`: from the last '.' on, when that dot is neither
      the first nor the last character; otherwise empty. */
  function Suffix(name: string): (r: string)
    ensures r != [] ==> 2 <= |r| < |name| && r[0] == '.' && '.' !in r[1..] && EndsWith(name, r)
    ensures '.' !in name ==> r == []
    ensures name != [] && name[|name| - 1] == '.' ==> r == []
    ensures name != [] && name[0] == '.' && '.' !in name[1..] ==> r == []
  {
    var n := TailLength(name, '.');
    if n < |name| && n > 0 && |name| - n - 1 > 0 then
      assert name[|name| - n - 1..][1..] == name[|name| - n..];
      name[|name| - n - 1..]
    else []
  }

  /** A name with a stem before its last dot has the dot and what follows
      as its suffix: "cv.pdf" has ".pdf", "cv.v2.docx" has ".docx". */
  lemma SuffixOfName(stem: string, ext: string)
    requires stem != [] && ext != [] && '.' !in ext
    ensures Suffix(stem + "." + ext) == "." + ext
  {
    var name := stem + "." + ext;
    TailLengthAfter(stem, '.', ext);
    assert name[|name| - |ext| - 1..] == "." + ext;
  }

  /** The tail after a `c` free of `c` is everything after it. */
  lemma {:induction false} TailLengthAfter(s: string, c: char, t: string)
    requires c !in t
    ensures TailLength(s + [c] + t, c) == |t|
    decreases |t|
  {
    var w := s + [c] + t;
    if t != [] {
      var t' := t[..|t| - 1];
      assert w[..|w| - 1] == s + [c] + t';
      assert w[|w| - 1] == t[|t| - 1];
      TailLengthAfter(s, c, t');
    }
  }

  /** The blob is unpacked as an archive. */
  predicate IsArchive(name: string) {
    EndsWith(Lower(name), ".zip")
  }

  /** An archive member is read. */
  predicate IsSupportedMember(path: string) {
    var l := Lower(path);
    EndsWith(l, ".pdf") || EndsWith(l, ".doc") || EndsWith(l, ".docx") || EndsWith(l, ".txt")
  }

  /* ---- read_text ---- */

  datatype Route = PdfRoute | WordRoute | TextRoute

  /** The reader `read_text` picks for a file name. */
  function RouteOf(name: string): (r: Route)
    ensures r == PdfRoute <==> Lower(Suffix(name)) == ".pdf"
    ensures r == WordRoute <==> Lower(Suffix(name)) in {".doc", ".docx"}
  {
    var s := Lower(Suffix(name));
    if s == ".pdf" then PdfRoute
    else if s in {".doc", ".docx"} then WordRoute
    else TextRoute
  }

  /** `page.extract_text() or ""` for every page, joined by newlines. */
  function PdfText(pages: seq<Option<string>>): string {
    Join(PageTexts(pages), "\n")
  }

  function PageTexts(pages: seq<Option<string>>): (r: seq<string>)
    ensures |r| == |pages|
    ensures forall i :: 0 <= i < |pages| ==> r[i] == pages[i].GetOr("")
  {
    seq(|pages|, i requires 0 <= i < |pages| => pages[i].GetOr(""))
  }

  /** Page texts free of newlines are recovered from the joined text, one
      piece per page, a page without text giving an empty piece. */
  lemma PdfPagesRecovered(pages: seq<Option<string>>)
    requires |pages| >= 1
    requires forall i :: 0 <= i < |pages| ==> '\n' !in pages[i].GetOr("")
    ensures Split(PdfText(pages), '\n') == PageTexts(pages)
  {
    SplitJoin(PageTexts(pages), '\n');
  }

  /** `read_text`: `None` when the chosen library raises. */
  function ReadText(name: string, data: Bytes, rd: Readers): (r: Option<string>)
    ensures RouteOf(name) == TextRoute ==> r == Some(rd.decode(data))
    ensures RouteOf(name) == WordRoute ==> r == rd.docx(data)
    ensures RouteOf(name) == PdfRoute ==>
              (r.Some? <==> rd.pdfPages(data).Some?) && (r.Some? ==> r.value == PdfText(rd.pdfPages(data).value))
  {
    match RouteOf(name)
    case PdfRoute =>
      (match rd.pdfPages(data)
       case None => None
       case Some(pages) => Some(PdfText(pages)))
    case WordRoute => rd.docx(data)
    case TextRoute => Some(rd.decode(data))
  }

  /* ---- load_files_from_uploader ---- */

  /** The members read from an archive, in archive order. */
  function Kept(entries: seq<ZipEntry>): (r: seq<ZipEntry>)
    ensures |r| <= |entries|
    ensures forall e :: e in r <==> e in entries && IsSupportedMember(e.path)
    decreases |entries|
  {
    if entries == [] then []
    else
      var rest := Kept(entries[1..]);
      assert forall e :: e in entries <==> e == entries[0] || e in entries[1..];
      if IsSupportedMember(entries[0].path) then [entries[0]] + rest else rest
  }

  /** Filtering two runs of entries in a row is filtering each: kept
      members stay in archive order, repeated names included. */
  lemma {:induction false} KeptAppend(a: seq<ZipEntry>, b: seq<ZipEntry>)
    ensures Kept(a + b) == Kept(a) + Kept(b)
    decreases |a|
  {
    if a == [] {
      assert a + b == b;
    } else {
      assert (a + b)[0] == a[0] && (a + b)[1..] == a[1..] + b;
      KeptAppend(a[1..], b);
    }
  }

  /** One entry is kept exactly when its name has a readable extension. */
  lemma KeptSingle(e: ZipEntry)
    ensures Kept([e]) == if IsSupportedMember(e.path) then [e] else []
  {
    assert [e][1..] == [];
  }

  /** `read_text` of a member, under its base name. */
  function MemberText(e: ZipEntry, rd: Readers): Option<string> {
    ReadText(Basename(e.path), e.data, rd)
  }

  predicate Readable(e: ZipEntry, rd: Readers) {
    MemberText(e, rd).Some?
  }

  /** What `read_text` gives for each member, in archive order. */
  function MemberTexts(entries: seq<ZipEntry>, rd: Readers): (r: seq<Option<string>>)
    ensures |r| == |entries|
    ensures forall i :: 0 <= i < |entries| ==> r[i] == MemberText(entries[i], rd)
  {
    seq(|entries|, i requires 0 <= i < |entries| => MemberText(entries[i], rd))
  }

  /** The documents of the members read in turn, each under its base name;
      any member whose reader raised fails the whole archive. */
  function ReadMembers(entries: seq<ZipEntry>, texts: seq<Option<string>>): (r: Option<seq<Doc>>)
    requires |texts| == |entries|
    ensures r.Some? <==> forall i :: 0 <= i < |texts| ==> texts[i].Some?
    ensures r.Some? ==> |r.value| == |entries|
    ensures r.Some? ==> forall i :: 0 <= i < |entries| ==>
              texts[i].Some? && r.value[i] == Doc(Basename(entries[i].path), texts[i].value)
    decreases |entries|
  {
    if entries == [] then Some([])
    else
      var rest := ReadMembers(entries[1..], texts[1..]);
      assert forall i :: 1 <= i < |texts| ==> texts[i] == texts[1..][i - 1];
      if texts[0].None? || rest.None? then None
      else Some([Doc(Basename(entries[0].path), texts[0].value)] + rest.value)
  }

  /** The documents an archive's kept members give: one per kept member,
      in archive order, under its base name and holding what `read_text`
      read from it, unless a read fails. */
  function ReadArchive(entries: seq<ZipEntry>, rd: Readers): (r: Option<seq<Doc>>)
    ensures r.Some? ==> forall i :: 0 <= i < |Kept(entries)| ==> Readable(Kept(entries)[i], rd)
    ensures (forall i :: 0 <= i < |Kept(entries)| ==> Readable(Kept(entries)[i], rd)) ==> r.Some?
    ensures r.Some? ==> |r.value| == |Kept(entries)|
    ensures r.Some? ==> forall i :: 0 <= i < |Kept(entries)| ==>
              Readable(Kept(entries)[i], rd) &&
              r.value[i] == Doc(Basename(Kept(entries)[i].path), MemberText(Kept(entries)[i], rd).value)
  {
    ReadEach(Kept(entries), rd);
    ReadMembers(Kept(entries), MemberTexts(Kept(entries), rd))
  }

  lemma ReadEach(kept: seq<ZipEntry>, rd: Readers)
    ensures ReadMembers(kept, MemberTexts(kept, rd)).Some? <==> forall i :: 0 <= i < |kept| ==> Readable(kept[i], rd)
    ensures ReadMembers(kept, MemberTexts(kept, rd)).Some? ==>
              |ReadMembers(kept, MemberTexts(kept, rd)).value| == |kept|
    ensures ReadMembers(kept, MemberTexts(kept, rd)).Some? ==> forall i :: 0 <= i < |kept| ==>
              Readable(kept[i], rd) &&
              ReadMembers(kept, MemberTexts(kept, rd)).value[i] == Doc(Basename(kept[i].path), MemberText(kept[i], rd).value)
  {
  }

  /** The documents one upload contributes. */
  function ExpandUpload(u: Upload, rd: Readers): (r: Option<seq<Doc>>)
    ensures !IsArchive(u.name) ==>
              r == (match ReadText(u.name, u.data, rd) case None => None case Some(t) => Some([Doc(u.name, t)]))
    ensures IsArchive(u.name) && rd.zipEntries(u.data).None? ==> r.None?
    ensures IsArchive(u.name) && rd.zipEntries(u.data).Some? ==> r == ReadArchive(rd.zipEntries(u.data).value, rd)
  {
    if IsArchive(u.name) then
      match rd.zipEntries(u.data)
      case None => None
      case Some(entries) => ReadArchive(entries, rd)
    else
      match ReadText(u.name, u.data, rd)
      case None => None
      case Some(t) => Some([Doc(u.name, t)])
  }

  /** How many documents an upload yields when nothing raises. */
  function Yield(u: Upload, rd: Readers): nat {
    if IsArchive(u.name) then
      match rd.zipEntries(u.data)
      case None => 0
      case Some(entries) => |Kept(entries)|
    else 1
  }

  function TotalYield(uploads: seq<Upload>, rd: Readers): nat
    decreases |uploads|
  {
    if uploads == [] then 0 else Yield(uploads[0], rd) + TotalYield(uploads[1..], rd)
  }

  /** `load_files_from_uploader`: every upload's documents, in upload
      order. A reader that raises aborts the whole load. */
  function Load(uploads: seq<Upload>, rd: Readers): (r: Option<seq<Doc>>)
    ensures r.Some? ==> |r.value| == TotalYield(uploads, rd)
    ensures r.Some? <==> forall i :: 0 <= i < |uploads| ==> ExpandUpload(uploads[i], rd).Some?
    decreases |uploads|
  {
    if uploads == [] then Some([])
    else
      var rest := Load(uploads[1..], rd);
      assert forall i :: 1 <= i < |uploads| ==> uploads[i] == uploads[1..][i - 1];
      match ExpandUpload(uploads[0], rd)
      case None => None
      case Some(d) =>
        (match rest
         case None => None
         case Some(ds) => Some(d + ds))
  }

  /** Loading two batches is loading each and concatenating: uploads keep
      their order and an archive's documents sit where the archive was. */
  lemma {:induction false} LoadAppend(a: seq<Upload>, b: seq<Upload>, rd: Readers)
    ensures Load(a + b, rd).Some? <==> Load(a, rd).Some? && Load(b, rd).Some?
    ensures Load(a + b, rd).Some? ==> Load(a + b, rd).value == Load(a, rd).value + Load(b, rd).value
    decreases |a|
  {
    if a == [] {
      assert a + b == b;
    } else {
      assert (a + b)[1..] == a[1..] + b;
      LoadAppend(a[1..], b, rd);
      if Load(a + b, rd).Some? {
        var d := ExpandUpload(a[0], rd).value;
        assert Load(a + b, rd).value == d + Load(a[1..] + b, rd).value;
        assert d + (Load(a[1..], rd).value + Load(b, rd).value) == (d + Load(a[1..], rd).value) + Load(b, rd).value;
      }
    }
  }

  /** A non-archive upload always yields exactly one document under its own
      name, whatever its extension, unless its reader raises. */
  lemma LoadSingleFile(u: Upload, rd: Readers)
    requires !IsArchive(u.name)
    requires ReadText(u.name, u.data, rd).Some?
    ensures Load([u], rd) == Some([Doc(u.name, ReadText(u.name, u.data, rd).value)])
  {
    LoadSingleArchive(u, rd);
  }

  /** An archive holding "a.pdf", "b.docx" and "notes.md" yields the first
      two, under their own names. */
  lemma ArchiveExample(u: Upload, a: ZipEntry, b: ZipEntry, notes: ZipEntry, rd: Readers)
    requires u.name == "cvs.zip" && a.path == "a.pdf" && b.path == "b.docx" && notes.path == "notes.md"
    requires rd.zipEntries(u.data) == Some([a, b, notes])
    requires rd.pdfPages(a.data).Some? && rd.docx(b.data).Some?
    ensures Load([u], rd).Some?
    ensures |Load([u], rd).value| == 2
    ensures Load([u], rd).value[0].name == "a.pdf" && Load([u], rd).value[1].name == "b.docx"
  {
    ExampleNames();
    ReadableExample(a.data, b.data, rd);
    assert a == ZipEntry("a.pdf", a.data) && b == ZipEntry("b.docx", b.data);
    LoadArchive(u, rd);
    ReadKept(a, b, notes, rd);
    ExampleBasenames();
  }

  /** An archive of two readable supported members and one unsupported one
      reads as the two, in order, under their base names. */
  lemma ReadKept(a: ZipEntry, b: ZipEntry, notes: ZipEntry, rd: Readers)
    requires IsSupportedMember(a.path) && IsSupportedMember(b.path) && !IsSupportedMember(notes.path)
    requires Readable(a, rd) && Readable(b, rd)
    ensures ReadArchive([a, b, notes], rd).Some? && |ReadArchive([a, b, notes], rd).value| == 2
    ensures ReadArchive([a, b, notes], rd).value[0].name == Basename(a.path)
    ensures ReadArchive([a, b, notes], rd).value[1].name == Basename(b.path)
  {
    KeptThree(a, b, notes);
    var texts := MemberTexts([a, b], rd);
    assert texts[0] == MemberText(a, rd) && texts[1] == MemberText(b, rd);
    ReadTwo([a, b], texts);
  }

  lemma KeptThree(a: ZipEntry, b: ZipEntry, notes: ZipEntry)
    requires IsSupportedMember(a.path) && IsSupportedMember(b.path) && !IsSupportedMember(notes.path)
    ensures Kept([a, b, notes]) == [a, b]
  {
    var es := [a, b, notes];
    assert es[1..] == [b, notes];
    assert es[1..][1..] == [notes];
    assert [notes][1..] == [];
    assert Kept([notes]) == [];
  }

  lemma ReadTwo(es: seq<ZipEntry>, texts: seq<Option<string>>)
    requires |es| == |texts| == 2 && texts[0].Some? && texts[1].Some?
    ensures ReadMembers(es, texts).Some? && |ReadMembers(es, texts).value| == 2
    ensures ReadMembers(es, texts).value[0].name == Basename(es[0].path)
    ensures ReadMembers(es, texts).value[1].name == Basename(es[1].path)
  {
  }

  /** An archive upload loads as the members it keeps. */
  lemma LoadArchive(u: Upload, rd: Readers)
    requires IsArchive(u.name) && rd.zipEntries(u.data).Some?
    ensures Load([u], rd) == ReadArchive(rd.zipEntries(u.data).value, rd)
  {
    LoadSingleArchive(u, rd);
  }

  lemma ReadableExample(pa: Bytes, pb: Bytes, rd: Readers)
    requires rd.pdfPages(pa).Some? && rd.docx(pb).Some?
    ensures Readable(ZipEntry("a.pdf", pa), rd) && Readable(ZipEntry("b.docx", pb), rd)
  {
    ExampleRoutes();
    ExampleBasenames();
    assert ReadText("a.pdf", pa, rd).Some?;
    assert ReadText("b.docx", pb, rd).Some?;
    assert MemberText(ZipEntry("a.pdf", pa), rd) == ReadText("a.pdf", pa, rd);
    assert MemberText(ZipEntry("b.docx", pb), rd) == ReadText("b.docx", pb, rd);
  }

  lemma ExampleNames()
    ensures IsArchive("cvs.zip")
    ensures IsSupportedMember("a.pdf") && IsSupportedMember("b.docx") && !IsSupportedMember("notes.md")
  {
    assert Lower("cvs.zip")[3..] == ".zip";
    assert Lower("a.pdf")[1..] == ".pdf";
    assert Lower("b.docx")[1..] == ".docx";
    assert Lower("notes.md")[7] == 'd';
  }

  lemma ExampleBasenames()
    ensures Basename("a.pdf") == "a.pdf" && Basename("b.docx") == "b.docx"
  {
    BasenameOfPlainName("a.pdf");
    BasenameOfPlainName("b.docx");
  }

  lemma ExampleRoutes()
    ensures RouteOf("a.pdf") == PdfRoute && RouteOf("b.docx") == WordRoute
  {
    PdfNameRoute();
    DocxNameRoute();
  }

  lemma PdfNameRoute()
    ensures RouteOf("a.pdf") == PdfRoute
  {
    SuffixPdf();
    LowerOfLowercase(".pdf");
  }

  lemma DocxNameRoute()
    ensures RouteOf("b.docx") == WordRoute
  {
    SuffixDocx();
    LowerOfLowercase(".docx");
  }

  lemma SuffixPdf()
    ensures Suffix("a.pdf") == ".pdf"
  {
    assert "a.pdf"[..4] == "a.pd" && "a.pd"[..3] == "a.p" && "a.p"[..2] == "a.";
    assert TailLength("a.", '.') == 0;
    assert TailLength("a.p", '.') == 1;
    assert TailLength("a.pd", '.') == 2;
  }

  lemma SuffixDocx()
    ensures Suffix("b.docx") == ".docx"
  {
    assert "b.docx"[..5] == "b.doc" && "b.doc"[..4] == "b.do" && "b.do"[..3] == "b.d" && "b.d"[..2] == "b.";
    assert TailLength("b.", '.') == 0;
    assert TailLength("b.d", '.') == 1;
    assert TailLength("b.do", '.') == 2;
    assert TailLength("b.doc", '.') == 3;
  }

  lemma LowerOfLowercase(s: string)
    requires forall i :: 0 <= i < |s| ==> !('A' <= s[i] <= 'Z')
    ensures Lower(s) == s
  {
  }

  lemma LoadSingleArchive(u: Upload, rd: Readers)
    ensures Load([u], rd) == ExpandUpload(u, rd)
  {
    assert [u][1..] == [];
    if ExpandUpload(u, rd).Some? {
      assert ExpandUpload(u, rd).value + [] == ExpandUpload(u, rd).value;
    }
  }
}
