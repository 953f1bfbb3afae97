/**
 * The computational core of generate_index.py: which directory entries the
 * generated page publishes, how each file is classified for its icon, the
 * per-extension tally, the two stat counters and the file cards. The
 * directory listing is an input: a sequence of (name, is-regular-file)
 * pairs in the order os.listdir returns them.
 */
module Listing {
  import opened Wrappers
  import opened PyText

  datatype DirEntry = DirEntry(name: string, isFile: bool)

  /** Names never published (generate_index.py:49-58). */
  const HiddenFiles: seq<string> := [
    "auth.py", "users.json", "config.py", "requirements.txt",
    "generate_index.py", "generate_index.py.bak", ".htaccess", "access_log.json"]

  /** The page being generated never lists itself. */
  const IndexFile: string := "index.html"

  /** The filter on a name (generate_index.py:63-65). */
  predicate Listable(name: string)
  {
    !(|name| > 0 && name[0] == '.') && name != IndexFile && name !in HiddenFiles
  }

  /**
   * The published files (generate_index.py:61-65): the regular files whose
   * names pass the filter, in directory order.
   */
  function ListFiles(entries: seq<DirEntry>): (files: seq<string>)
    ensures |files| <= |entries|
    ensures forall n :: n in files <==> DirEntry(n, true) in entries && Listable(n)
  {
    if entries == [] then []
    else
      var e := entries[0];
      assert forall x :: x in entries <==> x == e || x in entries[1..];
      (if e.isFile && Listable(e.name) then [e.name] else []) + ListFiles(entries[1..])
  }

  function Names(entries: seq<DirEntry>): (ns: seq<string>)
    ensures |ns| == |entries|
  {
    seq(|entries|, i requires 0 <= i < |entries| => entries[i].name)
  }

  /** The listing keeps directory order: it is a subsequence of the entry names. */
  lemma {:induction false} ListingIsSubsequence(entries: seq<DirEntry>)
    ensures IsSubsequence(ListFiles(entries), Names(entries))
  {
    if entries != [] {
      var e, rest := entries[0], entries[1..];
      ListingIsSubsequence(rest);
      assert Names(entries)[1..] == Names(rest);
      var xs, ys := ListFiles(entries), Names(entries);
      if e.isFile && Listable(e.name) {
        assert xs[0] == ys[0] && xs[1..] == ListFiles(rest);
      } else {
        assert xs == ListFiles(rest);
      }
    }
  }

  /** The six kinds of file the page distinguishes (generate_index.py:27-41). */
  datatype Category = Video | Code | Image | Document | Archive | Other

  const VideoExts: seq<string> := [".mp4", ".avi", ".mov", ".wmv", ".flv", ".webm"]
  const CodeExts: seq<string> := [".py", ".js", ".html", ".css", ".java", ".c", ".cpp", ".php", ".rb", ".go"]
  const ImageExts: seq<string> := [".jpg", ".jpeg", ".png", ".gif", ".bmp", ".svg"]
  const DocumentExts: seq<string> := [".pdf", ".doc", ".docx", ".txt", ".rtf"]
  const ArchiveExts: seq<string> := [".zip", ".rar", ".7z", ".tar", ".gz"]

  /** The lower-cased extension, the key every classification uses (generate_index.py:29, 70-71). */
  function ExtKey(name: string): string
  {
    Lower(Ext(name))
  }

  /** The elif chain of get_file_icon on a lower-cased extension (generate_index.py:30-41). */
  function Classify(ext: string): Category
  {
    if ext in VideoExts then Video
    else if ext in CodeExts then Code
    else if ext in ImageExts then Image
    else if ext in DocumentExts then Document
    else if ext in ArchiveExts then Archive
    else Other
  }

  /**
   * The five lists share no extension, so each category is exactly
   * membership in its list and the order of the tests does not matter.
   */
  lemma ClassifyExact(ext: string)
    ensures Classify(ext) == Video <==> ext in VideoExts
    ensures Classify(ext) == Code <==> ext in CodeExts
    ensures Classify(ext) == Image <==> ext in ImageExts
    ensures Classify(ext) == Document <==> ext in DocumentExts
    ensures Classify(ext) == Archive <==> ext in ArchiveExts
    ensures Classify(ext) == Other <==>
      ext !in VideoExts && ext !in CodeExts && ext !in ImageExts &&
      ext !in DocumentExts && ext !in ArchiveExts
  {
  }

  function IconClass(c: Category): string
  {
    match c
    case Video => "fas fa-file-video"
    case Code => "fas fa-file-code"
    case Image => "fas fa-file-image"
    case Document => "fas fa-file-alt"
    case Archive => "fas fa-file-archive"
    case Other => "fas fa-file"
  }

  function TypeName(c: Category): string
  {
    match c
    case Video => "视频文件"
    case Code => "代码文件"
    case Image => "图片文件"
    case Document => "文档文件"
    case Archive => "压缩文件"
    case Other => "其他文件"
  }

  /** The (icon class, type name) pairs get_file_icon can return. */
  const IconTable: seq<(string, string)> := [
    ("fas fa-file-video", "视频文件"), ("fas fa-file-code", "代码文件"),
    ("fas fa-file-image", "图片文件"), ("fas fa-file-alt", "文档文件"),
    ("fas fa-file-archive", "压缩文件"), ("fas fa-file", "其他文件")]

  /** get_file_icon (generate_index.py:27-41). */
  function FileIcon(name: string): (string, string)
  {
    var c := Classify(ExtKey(name));
    (IconClass(c), TypeName(c))
  }

  /**
   * get_file_icon returns one of the six pairs and no other value; the
   * fallback pair exactly when the lower-cased extension is on none of the
   * lists, the video and code pairs exactly when it is on their list.
   */
  lemma FileIconExact(name: string)
    ensures FileIcon(name) in IconTable
    ensures FileIcon(name) == ("fas fa-file", "其他文件") <==>
      ExtKey(name) !in VideoExts && ExtKey(name) !in CodeExts && ExtKey(name) !in ImageExts &&
      ExtKey(name) !in DocumentExts && ExtKey(name) !in ArchiveExts
    ensures FileIcon(name) == ("fas fa-file-video", "视频文件") <==> ExtKey(name) in VideoExts
    ensures FileIcon(name) == ("fas fa-file-code", "代码文件") <==> ExtKey(name) in CodeExts
  {
    var c := Classify(ExtKey(name));
    ClassifyExact(ExtKey(name));
    match c
    case Video => assert FileIcon(name) == IconTable[0];
    case Code => assert FileIcon(name) == IconTable[1];
    case Image => assert FileIcon(name) == IconTable[2];
    case Document => assert FileIcon(name) == IconTable[3];
    case Archive => assert FileIcon(name) == IconTable[4];
    case Other => assert FileIcon(name) == IconTable[5];
  }

  /** Names that differ only in the case of ASCII letters get the same icon and type. */
  lemma IconIgnoresCase(a: string, b: string)
    requires Lower(a) == Lower(b)
    ensures FileIcon(a) == FileIcon(b)
  {
    ExtCaseInsensitive(a, b);
  }

  /** How many of `files` have their lower-cased extension on `exts` (generate_index.py:491, 495). */
  function CountIn(files: seq<string>, exts: seq<string>): (n: nat)
    ensures n <= |files|
  {
    if files == [] then 0
    else (if ExtKey(files[0]) in exts then 1 else 0) + CountIn(files[1..], exts)
  }

  /** The video counter of the stats bar (generate_index.py:491). */
  function VideoCount(files: seq<string>): (n: nat)
    ensures n <= |files|
  {
    CountIn(files, VideoExts)
  }

  /** The code counter of the stats bar (generate_index.py:495). */
  function CodeCount(files: seq<string>): (n: nat)
    ensures n <= |files|
  {
    CountIn(files, CodeExts)
  }

  /** The two counters count disjoint sets of files, so together they never exceed the total. */
  lemma {:induction false} StatCountersDisjoint(files: seq<string>)
    ensures VideoCount(files) + CodeCount(files) <= |files|
  {
    if files != [] {
      StatCountersDisjoint(files[1..]);
      var k := ExtKey(files[0]);
      ClassifyExact(k);
    }
  }

  /** The number of `files` whose lower-cased extension is `ext`. */
  function Occurrences(files: seq<string>, ext: string): (n: nat)
    ensures n <= |files|
  {
    if files == [] then 0
    else (if ExtKey(files[0]) == ext then 1 else 0) + Occurrences(files[1..], ext)
  }

  /** A count is positive exactly when some file has that extension. */
  lemma {:induction false} OccurrencesPositive(files: seq<string>, ext: string)
    ensures Occurrences(files, ext) > 0 <==> exists f :: f in files && ExtKey(f) == ext
  {
    if files != [] {
      OccurrencesPositive(files[1..], ext);
      assert forall x :: x in files <==> x == files[0] || x in files[1..];
    }
  }

  lemma {:induction false} OccurrencesSnoc(files: seq<string>, f: string, ext: string)
    ensures Occurrences(files + [f], ext) == Occurrences(files, ext) + (if ExtKey(f) == ext then 1 else 0)
  {
    if files != [] {
      assert (files + [f])[1..] == files[1..] + [f];
      OccurrencesSnoc(files[1..], f, ext);
    }
  }

  /** Some key of a non-empty map: the one Total splits off first. */
  ghost function Pick(m: map<string, nat>): (k: string)
    requires |m| > 0
    ensures k in m
  {
    assert m.Keys != {} by {
      var x :| x in m;
    }
    var k :| k in m; k
  }

  /** The sum of the values of a tally. */
  ghost function Total(m: map<string, nat>): nat
    decreases |m|
  {
    if |m| == 0 then 0
    else
      var k := Pick(m);
      assert (m - {k}).Keys == m.Keys - {k};
      m[k] + Total(m - {k})
  }

  lemma {:induction false} TotalRemove(m: map<string, nat>, k: string)
    requires k in m
    ensures Total(m) == m[k] + Total(m - {k})
    decreases |m|
  {
    var j := Pick(m);
    assert (m - {j}).Keys == m.Keys - {j};
    if j != k {
      var mj, mk := m - {j}, m - {k};
      assert mk.Keys == m.Keys - {k};
      TotalRemove(mj, k);
      TotalRemove(mk, j);
      assert mj - {k} == mk - {j};
    }
  }

  /** `m` holds, for each extension present in `files`, how many files carry it, and no other key. */
  ghost predicate Tallies(m: map<string, nat>, files: seq<string>)
  {
    (forall ext :: ext in m <==> Occurrences(files, ext) > 0) &&
    (forall ext :: ext in m ==> m[ext] == Occurrences(files, ext))
  }

  /** The keys of an exact tally are the lower-cased extensions of the files. */
  lemma TallyKeys(m: map<string, nat>, files: seq<string>)
    requires Tallies(m, files)
    ensures forall ext :: ext in m <==> exists f :: f in files && ExtKey(f) == ext
  {
    forall e ensures Occurrences(files, e) > 0 <==> exists f :: f in files && ExtKey(f) == e {
      OccurrencesPositive(files, e);
    }
  }

  /** One iteration of the file_types loop keeps the tally exact. */
  lemma TallyStep(m: map<string, nat>, files: seq<string>, f: string, ext: string)
    requires Tallies(m, files) && ext == ExtKey(f)
    ensures Tallies(m[ext := (if ext in m then m[ext] else 0) + 1], files + [f])
  {
    forall e ensures Occurrences(files + [f], e) == Occurrences(files, e) + (if ext == e then 1 else 0) {
      OccurrencesSnoc(files, f, e);
    }
  }

  /** The tally with one fewer file carrying `k`. */
  function Decrement(m: map<string, nat>, k: string): map<string, nat>
    requires k in m
  {
    if m[k] <= 1 then m - {k} else m[k := m[k] - 1]
  }

  /** Forgetting the last file of an exact tally leaves an exact tally of the others. */
  lemma TallyShrink(m: map<string, nat>, init: seq<string>, f: string)
    requires Tallies(m, init + [f])
    ensures ExtKey(f) in m && m[ExtKey(f)] >= 1
    ensures Tallies(Decrement(m, ExtKey(f)), init)
  {
    forall e ensures Occurrences(init + [f], e) == Occurrences(init, e) + (if ExtKey(f) == e then 1 else 0) {
      OccurrencesSnoc(init, f, e);
    }
  }

  lemma TotalDecrement(m: map<string, nat>, k: string)
    requires k in m && m[k] >= 1
    ensures Total(Decrement(m, k)) + 1 == Total(m)
  {
    TotalRemove(m, k);
    if m[k] > 1 {
      var m' := Decrement(m, k);
      TotalRemove(m', k);
      assert m' - {k} == m - {k};
    }
  }

  /** The counts of an exact tally add up to the number of files. */
  lemma {:induction false} TallyTotal(m: map<string, nat>, files: seq<string>)
    requires Tallies(m, files)
    ensures Total(m) == |files|
  {
    if files == [] {
      assert forall k :: k !in m;
      assert m == map[];
    } else {
      var init, f := files[..|files| - 1], files[|files| - 1];
      assert files == init + [f];
      TallyShrink(m, init, f);
      TallyTotal(Decrement(m, ExtKey(f)), init);
      TotalDecrement(m, ExtKey(f));
    }
  }

  /** The dictionary the file_types loop has built after visiting `files`. */
  function TallyOf(files: seq<string>): map<string, nat>
  {
    if files == [] then map[]
    else
      var m, ext := TallyOf(files[..|files| - 1]), ExtKey(files[|files| - 1]);
      m[ext := (if ext in m then m[ext] else 0) + 1]
  }

  /** The dictionary the loop builds is an exact tally of the files visited. */
  lemma {:induction false} TallyOfExact(files: seq<string>)
    ensures Tallies(TallyOf(files), files)
  {
    if files != [] {
      var init, f := files[..|files| - 1], files[|files| - 1];
      TallyOfExact(init);
      TallyStep(TallyOf(init), init, f, ExtKey(f));
      assert init + [f] == files;
    }
  }

  /**
   * The file_types loop (generate_index.py:68-72): a tally keyed by the
   * lower-cased extensions of the listed files, each key counting the files
   * with that extension, the counts summing to the number of files.
   */
  method CountFileTypes(files: seq<string>) returns (fileTypes: map<string, nat>)
    ensures forall ext :: ext in fileTypes <==> exists f :: f in files && ExtKey(f) == ext
    ensures forall ext :: ext in fileTypes ==> fileTypes[ext] == Occurrences(files, ext)
    ensures Total(fileTypes) == |files|
  {
    fileTypes := map[];
    for i := 0 to |files|
      invariant fileTypes == TallyOf(files[..i])
    {
      var ext := Lower(Ext(files[i]));
      var current := if ext in fileTypes then fileTypes[ext] else 0;
      fileTypes := fileTypes[ext := current + 1];
      assert files[..i + 1][..i] == files[..i];
    }
    assert files[..|files|] == files;
    TallyOfExact(files);
    TallyKeys(fileTypes, files);
    TallyTotal(fileTypes, files);
  }

  /** The label shown for a file without an extension (generate_index.py:529). */
  const NoExtLabel: string := "文件"

  /**
   * The extension label of a card (generate_index.py:529): the extension
   * upper-cased with every dot removed, or "文件" when that leaves nothing.
   */
  function ExtLabel(name: string): (lbl: string)
    ensures '.' !in lbl && lbl != ""
  {
    var bare := Without(Upper(Ext(name)), '.');
    if bare == "" then NoExtLabel else bare
  }

  /**
   * The label is the upper-cased extension without its leading dot, and
   * "文件" exactly when the name has no extension or only a bare dot.
   */
  lemma ExtLabelExact(name: string)
    ensures '.' !in ExtLabel(name)
    ensures |Ext(name)| <= 1 ==> ExtLabel(name) == NoExtLabel
    ensures |Ext(name)| > 1 ==> ExtLabel(name) == Upper(Ext(name)[1..])
  {
    DotlessUpper(Ext(name));
  }

  /** Upper-casing an extension and deleting its dots leaves the upper-cased part after the dot. */
  lemma DotlessUpper(ext: string)
    requires ext == "" || (ext[0] == '.' && '.' !in ext[1..])
    ensures Without(Upper(ext), '.') == if ext == "" then "" else Upper(ext[1..])
  {
    if ext != "" {
      var u := Upper(ext);
      UpperHeadTail(ext);
      UpperKeepsDots(ext[1..]);
      assert u[0] == '.';
      assert Without(u, '.') == Without(u[1..], '.');
    }
  }

  /** What one card shows; the size text is not modelled. */
  datatype Card = Card(name: string, iconClass: string, typeName: string, extLabel: string)

  function CardFor(name: string): (c: Card)
    ensures c.name == name
  {
    var icon := FileIcon(name);
    Card(name, icon.0, icon.1, ExtLabel(name))
  }

  /** `[f(x) for x in xs]`: one result per element, in order. */
  function MapSeq<A, B>(f: A -> B, xs: seq<A>): (ys: seq<B>)
    ensures |ys| == |xs|
    ensures forall i :: 0 <= i < |xs| ==> ys[i] == f(xs[i])
  {
    if xs == [] then [] else MapSeq(f, xs[..|xs| - 1]) + [f(xs[|xs| - 1])]
  }

  /**
   * The card loop (generate_index.py:525-548): one card per listed file, in
   * listing order.
   */
  method RenderCards(files: seq<string>) returns (cards: seq<Card>)
    ensures cards == MapSeq(CardFor, files)
  {
    cards := [];
    for i := 0 to |files|
      invariant cards == MapSeq(CardFor, files[..i])
    {
      var file := files[i];
      cards := cards + [CardFor(file)];
      assert files[..i + 1][..i] == files[..i];
    }
    assert files[..|files|] == files;
  }

  /** Every element of a mapped sequence is the image of some element, at the same position. */
  lemma MapSeqMember<A, B>(f: A -> B, xs: seq<A>, y: B)
    requires y in MapSeq(f, xs)
    ensures exists i :: 0 <= i < |xs| && y == f(xs[i])
  {
    var ys := MapSeq(f, xs);
    var i :| 0 <= i < |ys| && ys[i] == y;
    assert y == f(xs[i]);
  }

  /** Every card is the card of one of the files it was rendered from. */
  lemma CardsNameFiles(files: seq<string>)
    ensures forall c :: c in MapSeq(CardFor, files) ==> c.name in files
  {
    forall c | c in MapSeq(CardFor, files)
      ensures c.name in files
    {
      MapSeqMember(CardFor, files, c);
      var i :| 0 <= i < |files| && c == CardFor(files[i]);
      assert c.name == files[i];
    }
  }

  /** The data the generated page carries besides its fixed text. */
  datatype IndexPage = IndexPage(
    totalFiles: nat,
    videoFiles: nat,
    codeFiles: nat,
    cards: seq<Card>,
    sharedFiles: nat)

  /**
   * generate_index (generate_index.py:43-555): select the files, tally their
   * extensions, count the stats and render one card per file.
   */
  method GenerateIndex(entries: seq<DirEntry>) returns (page: IndexPage, fileTypes: map<string, nat>)
    ensures page.totalFiles == page.sharedFiles == |page.cards| == |ListFiles(entries)|
    ensures page.cards == MapSeq(CardFor, ListFiles(entries))
    ensures page.videoFiles == VideoCount(ListFiles(entries))
    ensures page.codeFiles == CodeCount(ListFiles(entries))
    ensures forall c :: c in page.cards ==> DirEntry(c.name, true) in entries && Listable(c.name)
    ensures page.videoFiles + page.codeFiles <= page.totalFiles
    ensures Total(fileTypes) == page.totalFiles
  {
    var files := ListFiles(entries);
    fileTypes := CountFileTypes(files);
    var videos := VideoCount(files);
    var codes := CodeCount(files);
    StatCountersDisjoint(files);
    var cards := RenderCards(files);
    page := IndexPage(|files|, videos, codes, cards, |files|);
    CardsNameFiles(files);
  }
}
