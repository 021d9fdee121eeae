/** The `setup_fonts` management command
    (django_pdf_actions/management/commands/setup_fonts.py): the list of fonts
    to install, the name given to a custom font, the choice of the `.ttf`
    member of a downloaded zip archive, and the loop that installs each font
    that is not yet in the fonts directory, reporting failures and going on.
    The network is an oracle from URL to what the download produced; the fonts
    directory is an object whose set of file names the command extends. */
module SetupFonts {
  import opened Wrappers
  import opened Sequences

  type Text = seq<char>

  /** One font to install: the file name in the fonts directory and the URL it
      is downloaded from. */
  datatype FontEntry = FontEntry(name: Text, url: Text)

  const DejaVuName: Text := "DejaVuSans.ttf"
  const DejaVuUrl: Text :=
    "https://github.com/dejavu-fonts/dejavu-fonts/releases/download/version_2_37/dejavu-fonts-ttf-2.37.zip"
  const TtfSuffix: Text := ".ttf"

  /** What a download produced: the request raised, or the body is a plain
      file, or it is a zip archive with these member names in archive order. */
  datatype Fetched = FetchFailed(reason: Text) | PlainFile | Archive(members: seq<Text>)

  /** Why installing one font failed: the download raised, the archive holds no
      `.ttf` member ("No TTF files found in the zip archive"), or no member
      matches `DejaVuSans.ttf` (the bare `next(...)` raises StopIteration). */
  datatype FontError = DownloadFailed(reason: Text) | NoTtfInArchive | NoMatchingMember

  /** How a font was installed: the downloaded file was moved into place, or
      one archive member was extracted to it. */
  datatype Installation = MovedFile | ExtractedMember(member: Text)

  /** What happened to one font of the list: exactly one of these. */
  datatype Outcome = AlreadyPresent | Installed(how: Installation) | Failed(error: FontError)

  /** The messages the command writes to its standard output, in order. */
  datatype Event =
    | AddingCustomFont(name: Text, url: Text)
    | AlreadyExists(name: Text)
    | Downloading(name: Text)
    | InstalledFont(name: Text)
    | ProcessingError(name: Text, error: FontError)
    | ManualDownloadHint(url: Text)
    | SetupComplete

  /** A command-line option that Python treats as true: present and non-empty. */
  predicate Given(option: Option<Text>)
  {
    option.Some? && option.value != []
  }

  /** An option left out (None) and an empty string both count as not given;
      any other string counts as given. */
  lemma GivenTruthiness(value: Text)
    ensures !Given(None) && !Given(Some([]))
    ensures Given(Some(value)) <==> |value| > 0
  {
  }

  // ---------------------------------------------------------------------------
  // Font names and the font list

  /** `os.path.basename`: the part of `path` after its last `/`. */
  function Basename(path: Text): (r: Text)
    ensures '/' !in r
    ensures EndsWith(path, r)
    ensures |r| < |path| ==> path[|path| - |r| - 1] == '/'
  {
    if path == [] then []
    else if path[|path| - 1] == '/' then []
    else
      var r := Basename(path[..|path| - 1]) + [path[|path| - 1]];
      assert path[..|path| - 1][|path| - |r|..] + [path[|path| - 1]] == path[|path| - |r|..];
      r
  }

  /** The basename of a URL is its last path segment. */
  lemma {:induction false} BasenameOfSegment(dir: Text, file: Text)
    requires '/' !in file
    ensures Basename(dir + "/" + file) == file
  {
    if file != [] {
      var last := file[|file| - 1];
      assert (dir + "/" + file)[..|dir + "/" + file| - 1] == dir + "/" + file[..|file| - 1];
      BasenameOfSegment(dir, file[..|file| - 1]);
      assert file[..|file| - 1] + [last] == file;
    }
  }

  /** A font file name: `.ttf` is appended unless the name already ends in it. */
  function WithTtfSuffix(name: Text): (r: Text)
    ensures EndsWith(r, TtfSuffix)
    ensures EndsWith(name, TtfSuffix) ==> r == name
    ensures !EndsWith(name, TtfSuffix) ==> r == name + TtfSuffix
  {
    if EndsWith(name, TtfSuffix) then name
    else
      var r := name + TtfSuffix;
      assert r[|r| - |TtfSuffix|..] == TtfSuffix;
      r
  }

  /** Normalising a font name a second time changes nothing. */
  lemma WithTtfSuffixIdempotent(name: Text)
    ensures WithTtfSuffix(WithTtfSuffix(name)) == WithTtfSuffix(name)
  {
  }

  /** The name of the font given by `--font-url`: the `--font-name` value when
      it is given, else the URL's basename, with `.ttf` appended in both cases
      unless already there. */
  function CustomFontName(fontUrl: Text, fontName: Option<Text>): (r: Text)
    ensures EndsWith(r, TtfSuffix)
    ensures Given(fontName) ==> r == WithTtfSuffix(fontName.value)
    ensures !Given(fontName) ==> r == WithTtfSuffix(Basename(fontUrl))
  {
    if !Given(fontName) then WithTtfSuffix(Basename(fontUrl))
    else WithTtfSuffix(fontName.value)
  }

  /** The basename of the example URL used in `CustomFontNameExamples`. */
  lemma ExampleBasename()
    ensures Basename("https://fonts.example/Roboto.zip") == "Roboto.zip"
  {
    BasenameOfSegment("https://fonts.example", "Roboto.zip");
    assert "https://fonts.example/Roboto.zip" == "https://fonts.example" + "/" + "Roboto.zip";
  }

  /** The `.ttf` suffix on the names used in `CustomFontNameExamples`. */
  lemma ExampleSuffixes()
    ensures WithTtfSuffix("Roboto.zip") == "Roboto.zip.ttf"
    ensures WithTtfSuffix("Amiri") == "Amiri.ttf"
    ensures WithTtfSuffix("Amiri.ttf") == "Amiri.ttf"
  {
    assert !EndsWith("Roboto.zip", TtfSuffix);
    assert !EndsWith("Amiri", TtfSuffix);
    assert "Amiri.ttf"[|"Amiri.ttf"| - |TtfSuffix|..] == TtfSuffix;
  }

  /** A URL to a zip archive without `--font-name` names the font after the
      archive: `Roboto.zip` becomes `Roboto.zip.ttf`. A given name gets the
      suffix once. */
  lemma CustomFontNameExamples()
    ensures CustomFontName("https://fonts.example/Roboto.zip", None) == "Roboto.zip.ttf"
    ensures CustomFontName("https://fonts.example/Roboto.zip", Some("Amiri")) == "Amiri.ttf"
    ensures CustomFontName("https://fonts.example/Roboto.zip", Some("Amiri.ttf")) == "Amiri.ttf"
  {
    ExampleBasename();
    ExampleSuffixes();
  }

  /** The fonts the command processes: DejaVu Sans first, then the custom font
      exactly when `--font-url` is given. */
  function FontList(fontUrl: Option<Text>, fontName: Option<Text>): (fonts: seq<FontEntry>)
    ensures 1 <= |fonts| <= 2 && fonts[0] == FontEntry(DejaVuName, DejaVuUrl)
    ensures |fonts| == 2 <==> Given(fontUrl)
    ensures |fonts| == 2 ==> fonts[1].url == fontUrl.value && EndsWith(fonts[1].name, TtfSuffix)
    ensures |fonts| == 2 ==> fonts[1].name == CustomFontName(fontUrl.value, fontName)
  {
    [FontEntry(DejaVuName, DejaVuUrl)]
    + if Given(fontUrl) then [FontEntry(CustomFontName(fontUrl.value, fontName), fontUrl.value)] else []
  }

  // ---------------------------------------------------------------------------
  // Choosing the archive member

  /** `[f for f in zip_ref.namelist() if f.endswith('.ttf')]`. */
  function TtfMembers(names: seq<Text>): (r: seq<Text>)
    ensures forall k :: 0 <= k < |r| ==> r[k] in names && EndsWith(r[k], TtfSuffix)
    ensures forall i :: 0 <= i < |names| && EndsWith(names[i], TtfSuffix) ==> names[i] in r
  {
    Filter(names, (f: Text) => EndsWith(f, TtfSuffix))
  }

  /** The candidates keep archive order: they are the archive's names read at
      an increasing list of positions, exactly those of `.ttf` names. */
  lemma TtfMembersInArchiveOrder(names: seq<Text>)
    ensures var idx := KeptPositions(names, (f: Text) => EndsWith(f, TtfSuffix));
      && |idx| == |TtfMembers(names)|
      && (forall k :: 0 <= k < |idx| ==> idx[k] < |names| && TtfMembers(names)[k] == names[idx[k]])
      && (forall k, l :: 0 <= k < l < |idx| ==> idx[k] < idx[l])
      && (forall i :: 0 <= i < |names| ==> (i in idx <==> EndsWith(names[i], TtfSuffix)))
  {
    FilterKeepsOrder(names, (f: Text) => EndsWith(f, TtfSuffix));
  }

  /** The member to extract. For `DejaVuSans.ttf` it is the first candidate
      containing `DejaVuSans.ttf`, and there being none is an error; for any
      other name it is the first candidate containing the name, else the
      first candidate. */
  function SelectMember(candidates: seq<Text>, fontName: Text): (r: Result<Text, FontError>)
    requires candidates != []
    ensures r.Ok? ==> r.value in candidates
    ensures r.Err? <==> fontName == DejaVuName && forall j :: 0 <= j < |candidates| ==> !Contains(candidates[j], fontName)
    ensures r.Err? ==> r.error == NoMatchingMember
    ensures forall k :: 0 <= k < |candidates| && Contains(candidates[k], fontName)
                        && (forall j :: 0 <= j < k ==> !Contains(candidates[j], fontName))
                        ==> r == Ok(candidates[k])
    ensures fontName != DejaVuName && (forall j :: 0 <= j < |candidates| ==> !Contains(candidates[j], fontName)) ==>
      r == Ok(candidates[0])
  {
    if fontName == DejaVuName then
      match FirstIndex(candidates, (f: Text) => Contains(f, DejaVuName))
      case None => Err(NoMatchingMember)
      case Some(k) => Ok(candidates[k])
    else
      match FirstIndex(candidates, (f: Text) => Contains(f, fontName))
      case None => Ok(candidates[0])
      case Some(k) => Ok(candidates[k])
  }

  /** `download_and_process_font` once the download is done: a plain file is
      moved into place; from an archive the chosen `.ttf` member is extracted. */
  function ProcessFont(fetched: Fetched, fontName: Text): (r: Result<Installation, FontError>)
    ensures fetched.FetchFailed? ==> r == Err(DownloadFailed(fetched.reason))
    ensures fetched.PlainFile? ==> r == Ok(MovedFile)
    ensures fetched.Archive? && TtfMembers(fetched.members) == [] ==> r == Err(NoTtfInArchive)
    ensures r.Ok? && r.value.ExtractedMember? ==>
      fetched.Archive? && r.value.member in fetched.members && EndsWith(r.value.member, TtfSuffix)
    ensures fetched.Archive? && fontName != DejaVuName && TtfMembers(fetched.members) != [] ==> r.Ok?
    ensures r.Ok? && r.value.ExtractedMember? ==>
      SelectMember(TtfMembers(fetched.members), fontName) == Ok(r.value.member)
    ensures fetched.Archive? && fontName == DejaVuName && TtfMembers(fetched.members) != []
      && (forall j :: 0 <= j < |TtfMembers(fetched.members)| ==> !Contains(TtfMembers(fetched.members)[j], DejaVuName))
      ==> r == Err(NoMatchingMember)
    ensures fetched.Archive? && TtfMembers(fetched.members) != [] ==>
      && (r.Ok? <==> SelectMember(TtfMembers(fetched.members), fontName).Ok?)
      && (r.Ok? ==> r.value == ExtractedMember(SelectMember(TtfMembers(fetched.members), fontName).value))
    ensures fetched.Archive? && fontName == DejaVuName
      && (exists j :: 0 <= j < |TtfMembers(fetched.members)| && Contains(TtfMembers(fetched.members)[j], DejaVuName))
      ==> r.Ok? && r.value.ExtractedMember? && Contains(r.value.member, DejaVuName)
  {
    match fetched
    case FetchFailed(reason) => Err(DownloadFailed(reason))
    case PlainFile => Ok(MovedFile)
    case Archive(members) =>
      var ttfFiles := TtfMembers(members);
      if ttfFiles == [] then Err(NoTtfInArchive)
      else
        match SelectMember(ttfFiles, fontName)
        case Err(e) => Err(e)
        case Ok(member) => Ok(ExtractedMember(member))
  }

  /** The `.ttf` candidates of the archive used in `DejaVuArchiveExample`. */
  lemma ExampleCandidates()
    ensures TtfMembers(["LICENSE", "a.ttf", "ttf/DejaVuSans.ttf"]) == ["a.ttf", "ttf/DejaVuSans.ttf"]
  {
    var wanted: Text := "ttf/DejaVuSans.ttf";
    var names: seq<Text> := ["LICENSE", "a.ttf", wanted];
    var isTtf := (f: Text) => EndsWith(f, TtfSuffix);
    assert !isTtf(names[0]);
    assert "a.ttf"[1..] == TtfSuffix;
    assert wanted[|wanted| - 4..] == TtfSuffix;
    assert names[1..] == ["a.ttf", wanted] && names[1..][1..] == [wanted] && names[1..][1..][1..] == [];
    assert Filter(names[1..][1..], isTtf) == [wanted];
  }

  /** The DejaVu member of that archive contains `DejaVuSans.ttf`; the
      other candidate is too short to. */
  lemma ExampleMatches()
    ensures Contains("ttf/DejaVuSans.ttf", DejaVuName)
    ensures !Contains("a.ttf", DejaVuName)
  {
    var wanted: Text := "ttf/DejaVuSans.ttf";
    assert wanted[4..] == DejaVuName;
    assert OccursAt(wanted, DejaVuName, 4);
  }

  /** An archive whose DejaVu member sits in a sub-directory after another
      `.ttf` file: the DejaVu member is extracted, not the first `.ttf`; a
      licence file is never a candidate. */
  lemma DejaVuArchiveExample()
    ensures ProcessFont(Archive(["LICENSE", "a.ttf", "ttf/DejaVuSans.ttf"]), DejaVuName)
      == Ok(ExtractedMember("ttf/DejaVuSans.ttf"))
  {
    var candidates: seq<Text> := ["a.ttf", "ttf/DejaVuSans.ttf"];
    ExampleCandidates();
    ExampleMatches();
    assert SelectMember(candidates, DejaVuName) == Ok(candidates[1]);
  }

  // ---------------------------------------------------------------------------
  // The per-font loop, as a function of the directory contents

  /** What happens to one font given the files already in the directory: it is
      skipped when its file exists (no download is made), else it is
      downloaded and processed. */
  function Step(font: FontEntry, files: set<Text>, fetch: Text -> Fetched): (r: Outcome)
    ensures r == AlreadyPresent <==> font.name in files
    ensures r.Installed? ==> ProcessFont(fetch(font.url), font.name) == Ok(r.how)
    ensures r.Failed? ==> ProcessFont(fetch(font.url), font.name) == Err(r.error)
  {
    if font.name in files then AlreadyPresent
    else match ProcessFont(fetch(font.url), font.name)
      case Ok(how) => Installed(how)
      case Err(e) => Failed(e)
  }

  /** The directory after one font: only an installation adds a file. */
  function FilesAfter(font: FontEntry, files: set<Text>, outcome: Outcome): set<Text>
  {
    if outcome.Installed? then files + {font.name} else files
  }

  datatype RunResult = RunResult(outcomes: seq<Outcome>, files: set<Text>)

  /** The loop over all fonts: one outcome per font, in list order, and the
      directory contents at the end. */
  function Run(fonts: seq<FontEntry>, files: set<Text>, fetch: Text -> Fetched): (r: RunResult)
    ensures |r.outcomes| == |fonts|
    decreases |fonts|
  {
    if fonts == [] then RunResult([], files)
    else
      var outcome := Step(fonts[0], files, fetch);
      var rest := Run(fonts[1..], FilesAfter(fonts[0], files, outcome), fetch);
      RunResult([outcome] + rest.outcomes, rest.files)
  }

  /** Running over `a + b` is running over `a`, then over `b` from the
      directory `a` left behind. */
  lemma {:induction false} RunAppend(a: seq<FontEntry>, b: seq<FontEntry>, files: set<Text>, fetch: Text -> Fetched)
    ensures var ra := Run(a, files, fetch);
      var rb := Run(b, ra.files, fetch);
      Run(a + b, files, fetch) == RunResult(ra.outcomes + rb.outcomes, rb.files)
    decreases |a|
  {
    if a == [] {
      assert a + b == b;
    } else {
      assert (a + b)[0] == a[0] && (a + b)[1..] == a[1..] + b;
      var outcome := Step(a[0], files, fetch);
      RunAppend(a[1..], b, FilesAfter(a[0], files, outcome), fetch);
    }
  }

  /** Font `i` meets the directory as the fonts before it left it: it is
      skipped exactly when its file is there at that point, and otherwise its
      outcome depends only on its own download. */
  lemma RunAt(fonts: seq<FontEntry>, files: set<Text>, fetch: Text -> Fetched, i: nat)
    requires i < |fonts|
    ensures var before := Run(fonts[..i], files, fetch).files;
      && Run(fonts, files, fetch).outcomes[i] == Step(fonts[i], before, fetch)
      && (Run(fonts, files, fetch).outcomes[i] == AlreadyPresent <==> fonts[i].name in before)
  {
    assert fonts == fonts[..i] + fonts[i..];
    RunAppend(fonts[..i], fonts[i..], files, fetch);
  }

  /** A failure is isolated: a font that fails leaves the directory as it was,
      so every other font has the same outcome as if the failing font were not
      in the list at all. */
  lemma FailureIsolated(a: seq<FontEntry>, f: FontEntry, b: seq<FontEntry>, files: set<Text>, fetch: Text -> Fetched)
    requires Step(f, Run(a, files, fetch).files, fetch).Failed?
    ensures var full := Run(a + [f] + b, files, fetch);
      var without := Run(a + b, files, fetch);
      && full.outcomes[|a|] == Step(f, Run(a, files, fetch).files, fetch)
      && full.outcomes[..|a|] + full.outcomes[|a| + 1..] == without.outcomes
      && full.files == without.files
  {
    var ra := Run(a, files, fetch);
    RunAppend(a, [f] + b, files, fetch);
    RunAppend(a, b, files, fetch);
    assert a + [f] + b == a + ([f] + b);
    assert ([f] + b)[1..] == b;
    var full := Run(a + [f] + b, files, fetch);
    var rb := Run(b, ra.files, fetch);
    assert full.outcomes == ra.outcomes + ([Step(f, ra.files, fetch)] + rb.outcomes);
    assert full.outcomes[..|a|] == ra.outcomes;
    assert full.outcomes[|a| + 1..] == rb.outcomes;
  }

  /** Files are never removed: the directory after `a` is contained in the
      directory after `a + b`. */
  lemma FilesGrow(a: seq<FontEntry>, b: seq<FontEntry>, files: set<Text>, fetch: Text -> Fetched)
    ensures Run(a, files, fetch).files <= Run(a + b, files, fetch).files
  {
    RunAppend(a, b, files, fetch);
    RunFiles(b, Run(a, files, fetch).files, fetch);
  }

  /** A font that did not fail has its file in the directory right after its
      own step. */
  lemma PresentAfterStep(fonts: seq<FontEntry>, files: set<Text>, fetch: Text -> Fetched, i: nat)
    requires i < |fonts| && !Run(fonts, files, fetch).outcomes[i].Failed?
    ensures fonts[i].name in Run(fonts[..i + 1], files, fetch).files
  {
    RunAt(fonts, files, fetch, i);
    var before := Run(fonts[..i], files, fetch).files;
    assert fonts[..i + 1] == fonts[..i] + [fonts[i]];
    RunAppend(fonts[..i], [fonts[i]], files, fetch);
    assert Run([fonts[i]], before, fetch).files == FilesAfter(fonts[i], before, Step(fonts[i], before, fetch));
  }

  /** A later font with the name of an earlier font that was installed or
      already present is skipped: its file exists by then. */
  lemma SameNameSkipped(fonts: seq<FontEntry>, files: set<Text>, fetch: Text -> Fetched, i: nat, k: nat)
    requires i < k < |fonts| && fonts[i].name == fonts[k].name
    requires !Run(fonts, files, fetch).outcomes[i].Failed?
    ensures Run(fonts, files, fetch).outcomes[k] == AlreadyPresent
  {
    PresentAfterStep(fonts, files, fetch, i);
    assert fonts[..k] == fonts[..i + 1] + fonts[i + 1..k];
    FilesGrow(fonts[..i + 1], fonts[i + 1..k], files, fetch);
    RunAt(fonts, files, fetch, k);
  }

  /** The directory only gains the files of fonts that were installed, and
      every installed font's file is there at the end. */
  lemma {:induction false} RunFiles(fonts: seq<FontEntry>, files: set<Text>, fetch: Text -> Fetched)
    ensures var r := Run(fonts, files, fetch);
      && files <= r.files
      && (forall i :: 0 <= i < |fonts| && r.outcomes[i].Installed? ==> fonts[i].name in r.files)
      && (forall n :: n in r.files && n !in files ==>
            exists i :: 0 <= i < |fonts| && r.outcomes[i].Installed? && fonts[i].name == n)
    decreases |fonts|
  {
    if fonts != [] {
      var outcome := Step(fonts[0], files, fetch);
      var next := FilesAfter(fonts[0], files, outcome);
      RunFiles(fonts[1..], next, fetch);
      var r := Run(fonts, files, fetch);
      var rest := Run(fonts[1..], next, fetch);
      assert r.outcomes == [outcome] + rest.outcomes;
      forall n | n in r.files && n !in files
        ensures exists i :: 0 <= i < |fonts| && r.outcomes[i].Installed? && fonts[i].name == n
      {
        if n in next {
          assert r.outcomes[0].Installed? && fonts[0].name == n;
        } else {
          var k :| 0 <= k < |fonts[1..]| && rest.outcomes[k].Installed? && fonts[1..][k].name == n;
          assert r.outcomes[k + 1].Installed? && fonts[k + 1].name == n;
        }
      }
    }
  }

  /** When every font's file already exists the network is never consulted:
      every font is skipped, whatever the downloads would return. */
  lemma {:induction false} AllPresentNoDownload(fonts: seq<FontEntry>, files: set<Text>, fetch1: Text -> Fetched, fetch2: Text -> Fetched)
    requires forall i :: 0 <= i < |fonts| ==> fonts[i].name in files
    ensures Run(fonts, files, fetch1) == Run(fonts, files, fetch2)
    ensures forall i :: 0 <= i < |fonts| ==> Run(fonts, files, fetch1).outcomes[i] == AlreadyPresent
    decreases |fonts|
  {
    if fonts != [] {
      AllPresentNoDownload(fonts[1..], files, fetch1, fetch2);
    }
  }

  // ---------------------------------------------------------------------------
  // What the command writes

  /** The messages written for one font. */
  function FontEvents(font: FontEntry, outcome: Outcome): (r: seq<Event>)
    ensures 1 <= |r| <= 3 && SetupComplete !in r
    ensures r[0] == AlreadyExists(font.name) <==> outcome.AlreadyPresent?
    ensures !outcome.AlreadyPresent? ==> r[0] == Downloading(font.name)
    ensures ManualDownloadHint(font.url) in r <==> outcome.Failed?
    ensures outcome.AlreadyPresent? ==> |r| == 1
    ensures outcome.Installed? ==> |r| == 2
    ensures outcome.Failed? ==> |r| == 3
    ensures outcome.Installed? ==> InstalledFont(font.name) in r
    ensures outcome.Failed? ==> ProcessingError(font.name, outcome.error) in r && r[|r| - 1] == ManualDownloadHint(font.url)
  {
    match outcome
    case AlreadyPresent => [AlreadyExists(font.name)]
    case Installed(_) => [Downloading(font.name), InstalledFont(font.name)]
    case Failed(e) => [Downloading(font.name), ProcessingError(font.name, e), ManualDownloadHint(font.url)]
  }

  /** The messages of the loop: each font's messages, in list order. */
  function LoopLog(fonts: seq<FontEntry>, outcomes: seq<Outcome>): (r: seq<Event>)
    requires |outcomes| == |fonts|
    ensures |fonts| <= |r| <= 3 * |fonts|
  {
    if fonts == [] then [] else FontEvents(fonts[0], outcomes[0]) + LoopLog(fonts[1..], outcomes[1..])
  }

  /** The notice about the custom font, when there is one. */
  function Announcement(fonts: seq<FontEntry>): seq<Event>
  {
    if |fonts| == 2 then [AddingCustomFont(fonts[1].name, fonts[1].url)] else []
  }

  /** Everything the command writes, for the given outcomes. */
  function CommandLog(fonts: seq<FontEntry>, outcomes: seq<Outcome>): (r: seq<Event>)
    requires |outcomes| == |fonts|
    ensures |r| >= 1 && r[|r| - 1] == SetupComplete
    ensures |fonts| == 2 ==> r[0] == AddingCustomFont(fonts[1].name, fonts[1].url)
    ensures |fonts| == 2 ==> r[1..|r| - 1] == LoopLog(fonts, outcomes)
    ensures |fonts| != 2 ==> r == LoopLog(fonts, outcomes) + [SetupComplete]
  {
    Announcement(fonts) + LoopLog(fonts, outcomes) + [SetupComplete]
  }

  lemma {:induction false} LoopLogAppend(a: seq<FontEntry>, b: seq<FontEntry>, oa: seq<Outcome>, ob: seq<Outcome>)
    requires |oa| == |a| && |ob| == |b|
    ensures LoopLog(a + b, oa + ob) == LoopLog(a, oa) + LoopLog(b, ob)
    decreases |a|
  {
    if a == [] {
      assert a + b == b && oa + ob == ob;
    } else {
      assert (a + b)[1..] == a[1..] + b && (oa + ob)[1..] == oa[1..] + ob;
      LoopLogAppend(a[1..], b, oa[1..], ob);
    }
  }

  /** Font `i`'s messages form one block between those of the fonts before it
      and those of the fonts after it. */
  lemma LoopLogAt(fonts: seq<FontEntry>, outcomes: seq<Outcome>, i: nat)
    requires |outcomes| == |fonts| && i < |fonts|
    ensures LoopLog(fonts, outcomes) ==
      LoopLog(fonts[..i], outcomes[..i]) + FontEvents(fonts[i], outcomes[i]) + LoopLog(fonts[i + 1..], outcomes[i + 1..])
  {
    var rest, outRest := fonts[i..], outcomes[i..];
    assert fonts == fonts[..i] + rest && outcomes == outcomes[..i] + outRest;
    LoopLogAppend(fonts[..i], rest, outcomes[..i], outRest);
    assert rest[1..] == fonts[i + 1..] && outRest[1..] == outcomes[i + 1..];
    assert LoopLog(rest, outRest) == FontEvents(fonts[i], outcomes[i]) + LoopLog(fonts[i + 1..], outcomes[i + 1..]);
  }

  /** One more iteration of the loop: the directory and the messages after
      the first `i + 1` fonts follow from those after the first `i`. */
  lemma LoopStep(fonts: seq<FontEntry>, i: nat, files: set<Text>, fetch: Text -> Fetched)
    requires i < |fonts|
    ensures var prefix := Run(fonts[..i], files, fetch);
      var outcome := Step(fonts[i], prefix.files, fetch);
      var next := Run(fonts[..i + 1], files, fetch);
      && next.files == FilesAfter(fonts[i], prefix.files, outcome)
      && LoopLog(fonts[..i + 1], next.outcomes) == LoopLog(fonts[..i], prefix.outcomes) + FontEvents(fonts[i], outcome)
  {
    var font := fonts[i];
    var prefix := Run(fonts[..i], files, fetch);
    var outcome := Step(font, prefix.files, fetch);
    assert fonts[..i + 1] == fonts[..i] + [font];
    RunAppend(fonts[..i], [font], files, fetch);
    assert Run([font], prefix.files, fetch) == RunResult([outcome], FilesAfter(font, prefix.files, outcome));
    LoopLogAppend(fonts[..i], [font], prefix.outcomes, [outcome]);
    assert LoopLog([font], [outcome]) == FontEvents(font, outcome);
  }

  /** The command's output, appended to what was written before, is the
      announcement, then the loop's messages, then the completion message. */
  lemma CommandLogParts(before: seq<Event>, fonts: seq<FontEntry>, outcomes: seq<Outcome>)
    requires |outcomes| == |fonts|
    ensures before + Announcement(fonts) + LoopLog(fonts, outcomes) + [SetupComplete]
      == before + CommandLog(fonts, outcomes)
  {
    var a, l := Announcement(fonts), LoopLog(fonts, outcomes);
    assert CommandLog(fonts, outcomes) == a + l + [SetupComplete];
    AppendFour(before, a, l, [SetupComplete]);
  }

  /** Regrouping an append of four parts. */
  lemma AppendFour(w: seq<Event>, x: seq<Event>, y: seq<Event>, z: seq<Event>)
    ensures w + x + y + z == w + (x + y + z)
  {
  }

  /** The loop never writes the completion message, so it is written exactly
      once, as the last message, whatever happened to the fonts. */
  lemma {:induction false} CompletionOnceAtEnd(fonts: seq<FontEntry>, outcomes: seq<Outcome>)
    requires |outcomes| == |fonts|
    ensures SetupComplete !in Announcement(fonts) + LoopLog(fonts, outcomes)
    ensures CommandLog(fonts, outcomes)[|CommandLog(fonts, outcomes)| - 1] == SetupComplete
    decreases |fonts|
  {
    if fonts != [] {
      CompletionOnceAtEnd(fonts[1..], outcomes[1..]);
    }
  }

  // ---------------------------------------------------------------------------
  // The command object and the fonts directory

  /** The fonts directory: the names of the files it holds. */
  class FontsDirectory {
    var files: set<Text>

    constructor (existing: set<Text>)
      ensures files == existing
    {
      files := existing;
    }

    /** Writes (or moves) a font file into the directory. */
    method Store(name: Text)
      modifies this
      ensures files == old(files) + {name}
    {
      files := files + {name};
    }
  }

  class SetupFontsCommand {
    /** Everything written to the command's standard output so far. */
    var stdout: seq<Event>

    constructor ()
      ensures stdout == []
    {
      stdout := [];
    }

    method Write(event: Event)
      modifies this
      ensures stdout == old(stdout) + [event]
    {
      stdout := stdout + [event];
    }

    /** `download_and_process_font`: downloads the font, then moves the plain
        file into place or extracts the chosen archive member; on failure the
        directory is left as it was. */
    method DownloadAndProcessFont(url: Text, dir: FontsDirectory, fontName: Text, fetch: Text -> Fetched)
      returns (r: Result<Installation, FontError>)
      modifies dir
      ensures r == ProcessFont(fetch(url), fontName)
      ensures dir.files == if r.Ok? then old(dir.files) + {fontName} else old(dir.files)
    {
      var fetched := fetch(url);
      match fetched {
        case FetchFailed(reason) =>
          r := Err(DownloadFailed(reason));
        case PlainFile =>
          dir.Store(fontName);
          r := Ok(MovedFile);
        case Archive(members) =>
          var ttfFiles := TtfMembers(members);
          if ttfFiles == [] {
            r := Err(NoTtfInArchive);
          } else {
            var target := SelectMember(ttfFiles, fontName);
            match target {
              case Err(e) =>
                r := Err(e);
              case Ok(member) =>
                dir.Store(fontName);
                r := Ok(ExtractedMember(member));
            }
          }
      }
    }

    /** One iteration of the loop in `handle`: skips the font when its file
        exists, else downloads and installs it, writing an error and a hint
        instead when that raises. */
    method ProcessListedFont(dir: FontsDirectory, font: FontEntry, fetch: Text -> Fetched)
      modifies this, dir
      ensures var outcome := Step(font, old(dir.files), fetch);
        && dir.files == FilesAfter(font, old(dir.files), outcome)
        && stdout == old(stdout) + FontEvents(font, outcome)
    {
      if font.name in dir.files {
        Write(AlreadyExists(font.name));
        return;
      }
      Write(Downloading(font.name));
      var r := DownloadAndProcessFont(font.url, dir, font.name, fetch);
      match r {
        case Ok(_) =>
          Write(InstalledFont(font.name));
        case Err(e) =>
          Write(ProcessingError(font.name, e));
          Write(ManualDownloadHint(font.url));
      }
    }

    /** The start of `handle`: the built-in font, then the custom font when
        a URL is given, which is announced. */
    method ListFonts(fontUrl: Option<Text>, fontName: Option<Text>) returns (fonts: seq<FontEntry>)
      modifies this
      ensures fonts == FontList(fontUrl, fontName)
      ensures stdout == old(stdout) + Announcement(fonts)
    {
      fonts := [FontEntry(DejaVuName, DejaVuUrl)];
      if Given(fontUrl) {
        var name := CustomFontName(fontUrl.value, fontName);
        fonts := fonts + [FontEntry(name, fontUrl.value)];
        Write(AddingCustomFont(name, fontUrl.value));
      }
    }

    /** The loop of `handle` over the font list. */
    method ProcessFonts(dir: FontsDirectory, fonts: seq<FontEntry>, fetch: Text -> Fetched)
      modifies this, dir
      ensures var run := Run(fonts, old(dir.files), fetch);
        && dir.files == run.files
        && stdout == old(stdout) + LoopLog(fonts, run.outcomes)
    {
      ghost var start := dir.files;
      ghost var before := stdout;
      for i := 0 to |fonts|
        invariant dir.files == Run(fonts[..i], start, fetch).files
        invariant stdout == before + LoopLog(fonts[..i], Run(fonts[..i], start, fetch).outcomes)
      {
        LoopStep(fonts, i, start, fetch);
        ProcessListedFont(dir, fonts[i], fetch);
      }
      assert fonts[..|fonts|] == fonts;
    }

    /** `handle`: builds the font list, then for each font skips it when its
        file exists, else downloads and installs it, reporting an error and
        going on when that fails; ends with the completion message. */
    method Handle(dir: FontsDirectory, fontUrl: Option<Text>, fontName: Option<Text>, fetch: Text -> Fetched)
      modifies this, dir
      ensures var fonts := FontList(fontUrl, fontName);
        var run := Run(fonts, old(dir.files), fetch);
        && dir.files == run.files
        && stdout == old(stdout) + CommandLog(fonts, run.outcomes)
    {
      ghost var start := dir.files;
      var fonts := ListFonts(fontUrl, fontName);
      ProcessFonts(dir, fonts, fetch);
      Write(SetupComplete);
      CommandLogParts(old(stdout), fonts, Run(fonts, start, fetch).outcomes);
    }
  }
}
