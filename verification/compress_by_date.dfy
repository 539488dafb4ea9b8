/** The date-sharded archiver (`compress_json_by_date.py`): every walked file whose
    suffix is `.json` (case-insensitively) and whose name starts with a
    `YYYYMMDD` date is gzip-copied to `<out>/<year>/<MM>/<DD>/<name>.gz`; the
    run reports how many files it saw, compressed, skipped and failed on. The
    directory walk is an input sequence in walk order, and the copy itself
    (mkdir, open, gzip) is an oracle that either succeeds or raises. */
module CompressByDate {
  import opened Common
  import opened PyInt
  import opened DateParse

  /** One file yielded by `os.walk`: the directory it was found in and its
      name. */
  datatype WalkedFile = WalkedFile(root: string, name: string)

  // ---------------------------------------------------------------------------
  // The suffix filter

  /** Index of the last `.` in `s`, as `str.rfind`. */
  function LastDot(s: string): (r: Option<nat>)
    ensures r.Some? ==> r.value < |s| && s[r.value] == '.' && forall j :: r.value < j < |s| ==> s[j] != '.'
    ensures r.None? ==> forall j :: 0 <= j < |s| ==> s[j] != '.'
  {
    if |s| == 0 then None
    else if s[|s| - 1] == '.' then Some(|s| - 1)
    else LastDot(s[..|s| - 1])
  }

  /** `PurePath.suffix`: from the last dot on, unless that dot starts or
      ends the name. */
  function Suffix(name: string): string {
    match LastDot(name)
    case Some(i) => if 0 < i < |name| - 1 then name[i..] else ""
    case None => ""
  }

  function LowerChar(c: char): (l: char)
    ensures l == '.' <==> c == '.'
  {
    if 'A' <= c <= 'Z' then (c as int + 32) as char else c
  }

  /** `str.lower()` on ASCII letters. */
  function AsciiLower(s: string): (l: string)
    ensures |l| == |s|
    ensures forall i :: 0 <= i < |s| ==> l[i] == LowerChar(s[i])
  {
    seq(|s|, i requires 0 <= i < |s| => LowerChar(s[i]))
  }

  /** `file_path.suffix.lower() == ".json"`. */
  predicate HasJsonSuffix(name: string) {
    AsciiLower(Suffix(name)) == ".json"
  }

  /** The filter is "more than five characters, the last five of which read
      `.json` in any letter case": a bare `.json` is a hidden file without a
      suffix, and `x.json.gz` has suffix `.gz`. */
  lemma JsonSuffixIsLastFive(name: string)
    ensures HasJsonSuffix(name) <==> |name| > 5 && AsciiLower(name[|name| - 5..]) == ".json"
  {
    if HasJsonSuffix(name) {
      var i := LastDot(name).value;
      assert |Suffix(name)| == 5 && Suffix(name) == name[i..];
    }
    if |name| > 5 && AsciiLower(name[|name| - 5..]) == ".json" {
      var tail := name[|name| - 5..];
      assert LowerChar(tail[0]) == '.';
      forall j | |name| - 5 < j < |name| ensures name[j] != '.' {
        assert LowerChar(tail[j - (|name| - 5)]) == ".json"[j - (|name| - 5)];
      }
      assert LastDot(name) == Some(|name| - 5);
    }
  }

  // ---------------------------------------------------------------------------
  // Where a compressed copy goes

  /** The pieces of `Path(out) / year / month / day / (name + ".gz")`. */
  datatype OutputTarget = OutputTarget(baseDir: string, year: string, month: string, day: string, fileName: string)

  /** `compress_json_file`'s path construction for a file dated `d`. */
  function OutputTargetFor(outBase: string, f: WalkedFile, d: Date): (t: OutputTarget)
    requires IsCalendarDate(d)
    ensures t.baseDir == outBase
    ensures ParseInt(t.year) == Some(d.year)
    ensures ParseInt(t.month) == Some(d.month) && ParseInt(t.day) == Some(d.day)
    ensures |t.year| >= 1 && AllDigits(t.year) && t.year[0] != '0'
    ensures |t.month| == 2 && AllDigits(t.month) && |t.day| == 2 && AllDigits(t.day)
    ensures t.fileName == f.name + ".gz"
  {
    ParseShowInt(d.year);
    ParsePad2(d.month);
    ParsePad2(d.day);
    OutputTarget(outBase, ShowInt(d.year), Pad2(d.month), Pad2(d.day), f.name + ".gz")
  }

  /** For years 1000 and later the three date directories spell exactly the
      date prefix of the file name. */
  lemma DateDirectoriesSpellPrefix(outBase: string, f: WalkedFile)
    requires ParseDateFromFilename(f.name).Some? && f.name[0] != '0'
    ensures var t := OutputTargetFor(outBase, f, ParseDateFromFilename(f.name).value);
            t.year + t.month + t.day == f.name[..8]
  {
    var p := f.name[..8];
    var d := ParseDateFromFilename(f.name).value;
    assert d == FieldsOf(p);
    assert p[..4][0] == f.name[0];
    ShowNatOfCanonical(p[..4]);
    Pad2OfTwoDigits(p[4..6]);
    Pad2OfTwoDigits(p[6..8]);
    assert p == p[..4] + p[4..6] + p[6..8];
  }

  // ---------------------------------------------------------------------------
  // Classifying and counting

  datatype SkipReason = NotJson | NoDate
  datatype FileOutcome = Processed | Skipped(reason: SkipReason) | Failed

  /** The copy step: `true` when it completed, `false` when it raised. */
  type Compressor = (WalkedFile, OutputTarget) -> bool

  /** One iteration of the walk loop: only a dated `.json` file reaches the
      copy step, and only the copy step can fail. */
  function Classify(f: WalkedFile, outBase: string, compress: Compressor): (o: FileOutcome)
    ensures o == Processed || o == Failed ==> HasJsonSuffix(f.name) && ParseDateFromFilename(f.name).Some?
    ensures o == Skipped(NoDate) ==> HasJsonSuffix(f.name)
  {
    if !HasJsonSuffix(f.name) then Skipped(NotJson)
    else
      match ParseDateFromFilename(f.name)
      case None => Skipped(NoDate)
      case Some(d) => if compress(f, OutputTargetFor(outBase, f, d)) then Processed else Failed
  }

  /** A file is skipped as non-JSON iff its name does not end in a `.json`
      of any case after at least one other character; it is skipped as
      undated iff it passes that test but its first eight characters are not
      the digits of a calendar date; otherwise the copy's success decides. */
  lemma ClassifyCases(f: WalkedFile, outBase: string, compress: Compressor)
    ensures var o := Classify(f, outBase, compress);
            && (o == Skipped(NotJson) <==> !(|f.name| > 5 && AsciiLower(f.name[|f.name| - 5..]) == ".json"))
            && (o == Skipped(NoDate) <==>
                  && |f.name| > 5 && AsciiLower(f.name[|f.name| - 5..]) == ".json"
                  && !(|f.name| >= 8 && AllDigits(f.name[..8]) && IsCalendarDate(FieldsOf(f.name[..8]))))
            && (o.Processed? || o.Failed? ==>
                  && HasJsonSuffix(f.name) && ParseDateFromFilename(f.name).Some?
                  && (o.Processed? <==> compress(f, OutputTargetFor(outBase, f, ParseDateFromFilename(f.name).value))))
  {
    JsonSuffixIsLastFive(f.name);
  }

  /** The outcome of every walked file, in walk order. */
  function Outcomes(files: seq<WalkedFile>, outBase: string, compress: Compressor): (outs: seq<FileOutcome>)
    ensures |outs| == |files|
    ensures forall i :: 0 <= i < |files| ==> outs[i] == Classify(files[i], outBase, compress)
  {
    seq(|files|, i requires 0 <= i < |files| => Classify(files[i], outBase, compress))
  }

  /** Per-file flags of one category. */
  function Marks(outs: seq<FileOutcome>, p: FileOutcome -> bool): (flags: seq<bool>)
    ensures |flags| == |outs|
    ensures forall i :: 0 <= i < |outs| ==> flags[i] == p(outs[i])
  {
    seq(|outs|, i requires 0 <= i < |outs| => p(outs[i]))
  }

  predicate IsProcessed(o: FileOutcome) { o.Processed? }
  predicate IsSkipped(o: FileOutcome) { o.Skipped? }
  predicate IsFailed(o: FileOutcome) { o.Failed? }

  datatype Counts = Counts(processed: nat, skipped: nat, failed: nat)

  /** The three counters after a prefix of the outcomes. */
  function Tally(outs: seq<FileOutcome>): (c: Counts)
    ensures c.processed + c.skipped + c.failed == |outs|
  {
    if |outs| == 0 then Counts(0, 0, 0)
    else
      var c := Tally(outs[..|outs| - 1]);
      match outs[|outs| - 1]
      case Processed => c.(processed := c.processed + 1)
      case Skipped(_) => c.(skipped := c.skipped + 1)
      case Failed => c.(failed := c.failed + 1)
  }

  /** Each counter is the number of outcomes in its category. */
  lemma TallyCountsCategories(outs: seq<FileOutcome>)
    ensures Tally(outs).processed == CountTrue(Marks(outs, IsProcessed))
    ensures Tally(outs).skipped == CountTrue(Marks(outs, IsSkipped))
    ensures Tally(outs).failed == CountTrue(Marks(outs, IsFailed))
  {
    TallyProcessed(outs);
    TallySkipped(outs);
    TallyFailed(outs);
  }

  lemma {:induction false} TallyProcessed(outs: seq<FileOutcome>)
    ensures Tally(outs).processed == CountTrue(Marks(outs, IsProcessed))
  {
    if |outs| > 0 {
      var n := |outs| - 1;
      TallyProcessed(outs[..n]);
      var m := Marks(outs, IsProcessed);
      assert m[..n] == Marks(outs[..n], IsProcessed);
      assert CountTrue(m) == CountTrue(m[..n]) + (if m[n] then 1 else 0);
      TallyStep(outs, n);
      assert outs[..n + 1] == outs;
    }
  }

  lemma {:induction false} TallySkipped(outs: seq<FileOutcome>)
    ensures Tally(outs).skipped == CountTrue(Marks(outs, IsSkipped))
  {
    if |outs| > 0 {
      var n := |outs| - 1;
      TallySkipped(outs[..n]);
      var m := Marks(outs, IsSkipped);
      assert m[..n] == Marks(outs[..n], IsSkipped);
      assert CountTrue(m) == CountTrue(m[..n]) + (if m[n] then 1 else 0);
      TallyStep(outs, n);
      assert outs[..n + 1] == outs;
    }
  }

  lemma {:induction false} TallyFailed(outs: seq<FileOutcome>)
    ensures Tally(outs).failed == CountTrue(Marks(outs, IsFailed))
  {
    if |outs| > 0 {
      var n := |outs| - 1;
      TallyFailed(outs[..n]);
      var m := Marks(outs, IsFailed);
      assert m[..n] == Marks(outs[..n], IsFailed);
      assert CountTrue(m) == CountTrue(m[..n]) + (if m[n] then 1 else 0);
      TallyStep(outs, n);
      assert outs[..n + 1] == outs;
    }
  }

  lemma TallyStep(outs: seq<FileOutcome>, i: nat)
    requires i < |outs|
    ensures var c := Tally(outs[..i]);
            Tally(outs[..i + 1]) == match outs[i]
              case Processed => c.(processed := c.processed + 1)
              case Skipped(_) => c.(skipped := c.skipped + 1)
              case Failed => c.(failed := c.failed + 1)
  {
    assert outs[..i + 1][..i] == outs[..i];
  }

  /** `process_all_json_files`: every walked file is classified in walk
      order and counted. Every file lands in exactly one category, and the
      counters are the tally of the files' outcomes (by
      `TallyCountsCategories`, each counter is the number of files in its
      category). */
  method ProcessAllJsonFiles(files: seq<WalkedFile>, outBase: string, compress: Compressor)
    returns (total: nat, processed: nat, skipped: nat, failed: nat)
    ensures total == |files| == processed + skipped + failed
    ensures Counts(processed, skipped, failed) == Tally(Outcomes(files, outBase, compress))
  {
    var outs := Outcomes(files, outBase, compress);
    total, processed, skipped, failed := CountOutcomes(outs);
  }

  /** The counter updates of the walk loop, one outcome at a time. */
  method CountOutcomes(outs: seq<FileOutcome>) returns (total: nat, processed: nat, skipped: nat, failed: nat)
    ensures total == |outs| == processed + skipped + failed
    ensures Counts(processed, skipped, failed) == Tally(outs)
  {
    total, processed, skipped, failed := 0, 0, 0, 0;
    var i := 0;
    while i < |outs|
      invariant 0 <= i <= |outs| && total == i
      invariant Counts(processed, skipped, failed) == Tally(outs[..i])
    {
      TallyStep(outs, i);
      total := total + 1;
      match outs[i] {
        case Processed => processed := processed + 1;
        case Skipped(_) => skipped := skipped + 1;
        case Failed => failed := failed + 1;
      }
      i := i + 1;
    }
    assert outs[..i] == outs;
  }

  /** The counters do not depend on the walk order: any permutation of the
      same files gives the same four numbers. */
  lemma TallyOrderFree(files: seq<WalkedFile>, other: seq<WalkedFile>, outBase: string, compress: Compressor)
    requires multiset(files) == multiset(other)
    ensures Tally(Outcomes(files, outBase, compress)) == Tally(Outcomes(other, outBase, compress))
  {
    var a, b := Outcomes(files, outBase, compress), Outcomes(other, outBase, compress);
    MarksPermute(files, other, outBase, compress, IsProcessed);
    MarksPermute(files, other, outBase, compress, IsSkipped);
    MarksPermute(files, other, outBase, compress, IsFailed);
    TallyCountsCategories(a);
    TallyCountsCategories(b);
  }

  lemma MarksPermute(files: seq<WalkedFile>, other: seq<WalkedFile>, outBase: string, compress: Compressor,
                     p: FileOutcome -> bool)
    requires multiset(files) == multiset(other)
    ensures CountTrue(Marks(Outcomes(files, outBase, compress), p))
         == CountTrue(Marks(Outcomes(other, outBase, compress), p))
  {
    var g := (f: WalkedFile) => p(Classify(f, outBase, compress));
    MapPreservesMultiset(files, other, g);
    assert Marks(Outcomes(files, outBase, compress), p) == MapSeq(files, g);
    assert Marks(Outcomes(other, outBase, compress), p) == MapSeq(other, g);
    CountTrueOrderFree(MapSeq(files, g), MapSeq(other, g));
  }

  /** Which files are skipped depends on their names only, never on the
      outcome of any copy. */
  lemma SkipsIgnoreCompressor(files: seq<WalkedFile>, outBase: string, c1: Compressor, c2: Compressor)
    ensures Marks(Outcomes(files, outBase, c1), IsSkipped) == Marks(Outcomes(files, outBase, c2), IsSkipped)
  {
    forall i | 0 <= i < |files|
      ensures IsSkipped(Classify(files[i], outBase, c1)) == IsSkipped(Classify(files[i], outBase, c2))
    {
      ClassifyCases(files[i], outBase, c1);
      ClassifyCases(files[i], outBase, c2);
    }
  }
}
