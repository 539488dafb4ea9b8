/** The catalog scans `generate_index` and `check_existing_files`. The storage
    root is an abstract listing in `os.listdir` order; each entry is a plain
    file or a directory with the names it lists. Both scans visit the entries
    in order and assign `result[int(name)] = ...`, so a later directory whose
    name has the same integer value overwrites an earlier one. */
module Index {
  import opened Common
  import opened PyInt
  import opened Sorting
  import opened Orchestrator

  datatype Node = File | Dir(names: seq<string>)
  datatype Entry = Entry(name: string, node: Node)

  /** One index record: the `index.json` object of a match. */
  datatype GameRecord = GameRecord(totalRounds: nat, minRound: int, maxRound: int, rounds: seq<int>, directory: string)

  // ---------------------------------------------------------------------------
  // String tests used by the file filter

  predicate EndsWith(s: string, suffix: string) {
    |suffix| <= |s| && s[|s| - |suffix|..] == suffix
  }

  /** Python's `t in s` for strings. */
  predicate HasSubstring(s: string, t: string)
    decreases |s|
  {
    |t| <= |s| && (s[..|t|] == t || (|s| > 0 && HasSubstring(s[1..], t)))
  }

  const RoundMarker := "_0_mjai.json"

  /** The filter both scans apply: `file.endswith(".json") and "_0_mjai.json" in file`. */
  predicate IsRoundFileName(name: string) {
    EndsWith(name, ".json") && HasSubstring(name, RoundMarker)
  }

  /** `name.split("_")[0]`. */
  function LeadingToken(name: string): (tok: string)
    ensures |tok| <= |name| && tok == name[..|tok|]
    ensures forall i :: 0 <= i < |tok| ==> tok[i] != '_'
    ensures |tok| == |name| || name[|tok|] == '_'
  {
    if |name| == 0 || name[0] == '_' then ""
    else
      var rest := LeadingToken(name[1..]);
      [name[0]] + rest
  }

  /** The round number a file name contributes under a file filter: the
      integer value of its leading token, when it passes the filter and the
      token parses. */
  function RoundOf(name: string, recognise: string -> bool): Option<int> {
    if recognise(name) then ParseInt(LeadingToken(name)) else None
  }

  /** The `rounds` list of one match directory, in listing order. */
  function CollectRounds(names: seq<string>, recognise: string -> bool): (rs: seq<int>)
    ensures |rs| <= |names|
  {
    if |names| == 0 then []
    else
      var init := CollectRounds(names[..|names| - 1], recognise);
      var last := names[|names| - 1];
      match RoundOf(last, recognise)
      case Some(r) => init + [r]
      case None => init
  }

  /** Some name passes the filter and has a leading token that parses. */
  ghost predicate YieldsRound(names: seq<string>, recognise: string -> bool) {
    exists k :: 0 <= k < |names| && recognise(names[k]) && ParseInt(LeadingToken(names[k])).Some?
  }

  /** The collected rounds are exactly the parsed leading tokens of the names
      that pass the filter. */
  lemma {:induction false} CollectRoundsMembers(names: seq<string>, recognise: string -> bool)
    ensures forall x :: x in CollectRounds(names, recognise) <==>
              exists k :: 0 <= k < |names| && recognise(names[k]) && ParseInt(LeadingToken(names[k])) == Some(x)
  {
    if |names| > 0 {
      var n := |names| - 1;
      var init := names[..n];
      CollectRoundsMembers(init, recognise);
      assert forall k :: 0 <= k < n ==> init[k] == names[k];
      var rs := CollectRounds(names, recognise);
      match RoundOf(names[n], recognise)
      case Some(r) => assert rs == CollectRounds(init, recognise) + [r];
      case None => assert rs == CollectRounds(init, recognise);
    }
  }

  /** So the list is empty iff no name yields a round. */
  lemma CollectRoundsNonEmpty(names: seq<string>, recognise: string -> bool)
    ensures |CollectRounds(names, recognise)| > 0 <==> YieldsRound(names, recognise)
  {
    CollectRoundsMembers(names, recognise);
    var rs := CollectRounds(names, recognise);
    if |rs| > 0 {
      assert rs[0] in rs;
    }
    if YieldsRound(names, recognise) {
      var k :| 0 <= k < |names| && recognise(names[k]) && ParseInt(LeadingToken(names[k])).Some?;
      assert ParseInt(LeadingToken(names[k])).value in rs;
    }
  }

  /** Collecting is done name by name in listing order: the rounds of a
      concatenated listing are the rounds of its parts, concatenated. */
  lemma {:induction false} CollectRoundsAppend(a: seq<string>, b: seq<string>, recognise: string -> bool)
    ensures CollectRounds(a + b, recognise) == CollectRounds(a, recognise) + CollectRounds(b, recognise)
  {
    if |b| == 0 {
      assert a + b == a;
    } else {
      var b' := b[..|b| - 1];
      CollectRoundsAppend(a, b', recognise);
      assert (a + b)[..|a + b| - 1] == a + b';
      assert (a + b)[|a + b| - 1] == b[|b| - 1];
    }
  }

  /** A record as the source builds it from a non-empty `rounds` list:
      length, `min`, `max`, `sorted` and the directory name. */
  function MakeRecord(directory: string, collected: seq<int>): (rec: GameRecord)
    requires |collected| > 0
    ensures rec.totalRounds == |collected| == |rec.rounds|
    ensures Sorted(rec.rounds) && multiset(rec.rounds) == multiset(collected)
    ensures rec.minRound == rec.rounds[0] && rec.maxRound == rec.rounds[|rec.rounds| - 1]
    ensures rec.minRound in collected && rec.maxRound in collected
    ensures forall x :: x in collected ==> rec.minRound <= x <= rec.maxRound
    ensures rec.directory == directory
  {
    var sorted := Sort(collected);
    SortedEnds(collected, sorted);
    GameRecord(|collected|, MinOf(collected), MaxOf(collected), sorted, directory)
  }

  /** What a record of match `g` promises: one entry per collected round,
      ascending, bracketed by `min_round` and `max_round`, and stored under
      a directory whose name parses to `g`. */
  predicate RecordFits(rec: GameRecord, g: int) {
    && rec.totalRounds == |rec.rounds| > 0
    && Sorted(rec.rounds)
    && rec.minRound == rec.rounds[0]
    && rec.maxRound == rec.rounds[|rec.rounds| - 1]
    && ParseInt(rec.directory) == Some(g)
  }

  // ---------------------------------------------------------------------------
  // The shared "later entry wins" scan

  /** Entry `i` of the listing contributes key `g`. */
  ghost predicate KeyedAt<V>(listing: seq<Entry>, f: Entry -> Option<(int, V)>, i: int, g: int) {
    0 <= i < |listing| && f(listing[i]).Some? && f(listing[i]).value.0 == g
  }

  /** Entry `i` is the last one contributing key `g`. */
  ghost predicate LastKeyedAt<V>(listing: seq<Entry>, f: Entry -> Option<(int, V)>, i: int, g: int) {
    KeyedAt(listing, f, i, g) && forall j :: i < j < |listing| ==> !KeyedAt(listing, f, j, g)
  }

  lemma KeyedPrefix<V>(listing: seq<Entry>, f: Entry -> Option<(int, V)>, n: nat)
    requires n <= |listing|
    ensures forall i, g :: 0 <= i < n ==> (KeyedAt(listing[..n], f, i, g) <==> KeyedAt(listing, f, i, g))
  {
  }

  /** `for entry in listing: if f(entry) gives (g, v): result[g] = v`. */
  function LastWins<V>(listing: seq<Entry>, f: Entry -> Option<(int, V)>): (m: map<int, V>)
  {
    if |listing| == 0 then map[]
    else
      var n := |listing| - 1;
      var m := LastWins(listing[..n], f);
      match f(listing[n])
      case Some(kv) => m[kv.0 := kv.1]
      case None => m
  }

  /** The keys of the scan are exactly those some entry contributes. */
  lemma {:induction false} LastWinsKeys<V>(listing: seq<Entry>, f: Entry -> Option<(int, V)>)
    ensures forall g :: g in LastWins(listing, f) <==> exists i :: KeyedAt(listing, f, i, g)
  {
    if |listing| > 0 {
      var n := |listing| - 1;
      LastWinsKeys(listing[..n], f);
      KeyedPrefix(listing, f, n);
      if f(listing[n]).Some? {
        assert KeyedAt(listing, f, n, f(listing[n]).value.0);
      }
    }
  }

  /** The value stored for a key is the one its last contributing entry gave. */
  lemma {:induction false} LastWinsValue<V>(listing: seq<Entry>, f: Entry -> Option<(int, V)>, g: int) returns (i: int)
    requires g in LastWins(listing, f)
    ensures LastKeyedAt(listing, f, i, g) && LastWins(listing, f)[g] == f(listing[i]).value.1
  {
    var n := |listing| - 1;
    var init := listing[..n];
    KeyedPrefix(listing, f, n);
    if f(listing[n]).Some? && f(listing[n]).value.0 == g {
      i := n;
      assert LastKeyedAt(listing, f, n, g);
    } else {
      assert g in LastWins(init, f);
      i := LastWinsValue(init, f, g);
      assert LastKeyedAt(listing, f, i, g);
    }
  }

  // ---------------------------------------------------------------------------
  // generate_index

  /** `int(name)` of a directory entry; plain files and non-numeric names
      give nothing. */
  function DirKey(e: Entry): Option<int> {
    if e.node.Dir? then ParseInt(e.name) else None
  }

  /** What one entry contributes to the index under a file filter. */
  function IndexEntry(recognise: string -> bool, e: Entry): Option<(int, GameRecord)> {
    match DirKey(e)
    case None => None
    case Some(g) =>
      var rounds := CollectRounds(e.node.names, recognise);
      if |rounds| > 0 then Some((g, MakeRecord(e.name, rounds))) else None
  }

  function BuildIndex(listing: seq<Entry>, recognise: string -> bool): (index: map<int, GameRecord>)
    ensures forall g :: g in index ==> RecordFits(index[g], g)
  {
    var f := e => IndexEntry(recognise, e);
    var m := LastWins(listing, f);
    forall g | g in m ensures RecordFits(m[g], g) {
      var i := LastWinsValue(listing, f, g);
      assert f(listing[i]) == IndexEntry(recognise, listing[i]);
      IndexEntryFits(recognise, listing[i]);
    }
    m
  }

  /** Every record an entry contributes is well formed and named by a
      directory that parses back to its key. */
  lemma IndexEntryFits(recognise: string -> bool, e: Entry)
    ensures var c := IndexEntry(recognise, e);
            c.Some? ==> RecordFits(c.value.1, c.value.0)
  {
    if e.node.Dir? && ParseInt(e.name).Some? {
      var rounds := CollectRounds(e.node.names, recognise);
      if |rounds| > 0 {
        var rec := MakeRecord(e.name, rounds);
        assert IndexEntry(recognise, e) == Some((ParseInt(e.name).value, rec));
        assert rec.totalRounds == |rec.rounds| > 0 && Sorted(rec.rounds);
        assert rec.directory == e.name;
      }
    }
  }

  /** `generate_index(save_dir)` as written (the `index.json` write is not
      modelled). A match is indexed iff some directory entry has a name that
      parses to it and lists at least one name passing the filter whose
      leading token parses; its record is built from the last such entry. */
  function GenerateIndex(listing: seq<Entry>): (index: map<int, GameRecord>)
    ensures forall g :: g in index ==> RecordFits(index[g], g)
  {
    BuildIndex(listing, IsRoundFileName)
  }

  /** The keys of `generate_index`: a match is indexed iff some directory
      entry parses to it and lists a name that passes the filter and whose
      leading token parses. */
  lemma GenerateIndexKeys(listing: seq<Entry>)
    ensures forall g :: g in GenerateIndex(listing) <==>
              exists i :: 0 <= i < |listing| && DirKey(listing[i]) == Some(g)
                          && YieldsRound(listing[i].node.names, IsRoundFileName)
  {
    var f := e => IndexEntry(IsRoundFileName, e);
    var m := GenerateIndex(listing);
    assert m == LastWins(listing, f);
    LastWinsKeys(listing, f);
    forall g ensures g in m <==>
              exists i :: 0 <= i < |listing| && DirKey(listing[i]) == Some(g)
                          && YieldsRound(listing[i].node.names, IsRoundFileName)
    {
      if g in m {
        var i :| KeyedAt(listing, f, i, g);
        CollectRoundsNonEmpty(listing[i].node.names, IsRoundFileName);
      }
      if exists i :: 0 <= i < |listing| && DirKey(listing[i]) == Some(g)
                     && YieldsRound(listing[i].node.names, IsRoundFileName) {
        var i :| 0 <= i < |listing| && DirKey(listing[i]) == Some(g)
                 && YieldsRound(listing[i].node.names, IsRoundFileName);
        CollectRoundsNonEmpty(listing[i].node.names, IsRoundFileName);
        assert KeyedAt(listing, f, i, g);
      }
    }
  }

  /** The `index.json` file written into the root is a plain file, so it (and
      every other plain file) has no effect on a later rebuild. */
  lemma {:induction false} IndexIgnoresPlainFiles(listing: seq<Entry>, recognise: string -> bool)
    ensures BuildIndex(listing, recognise) == BuildIndex(DirsOnly(listing), recognise)
  {
    if |listing| > 0 {
      var init := listing[..|listing| - 1];
      IndexIgnoresPlainFiles(init, recognise);
      var last := listing[|listing| - 1];
      if last.node.Dir? {
        assert DirsOnly(listing) == DirsOnly(init) + [last];
        assert (DirsOnly(init) + [last])[..|DirsOnly(init)|] == DirsOnly(init);
      } else {
        assert DirsOnly(listing) == DirsOnly(init);
      }
    }
  }

  function DirsOnly(listing: seq<Entry>): seq<Entry> {
    if |listing| == 0 then []
    else
      var last := listing[|listing| - 1];
      DirsOnly(listing[..|listing| - 1]) + (if last.node.Dir? then [last] else [])
  }

  // ---------------------------------------------------------------------------
  // check_existing_files

  /** `len([f for f in names if <filter>(f)])`. */
  function CountMatching(names: seq<string>, recognise: string -> bool): (n: nat)
    ensures n <= |names|
    ensures n == 0 <==> forall k :: 0 <= k < |names| ==> !recognise(names[k])
  {
    if |names| == 0 then 0
    else
      var init := names[..|names| - 1];
      assert forall k :: 0 <= k < |init| ==> init[k] == names[k];
      CountMatching(init, recognise) + (if recognise(names[|names| - 1]) then 1 else 0)
  }

  function ExistingEntry(recognise: string -> bool, e: Entry): Option<(int, nat)> {
    match DirKey(e)
    case None => None
    case Some(g) =>
      var n := CountMatching(e.node.names, recognise);
      if n > 0 then Some((g, n)) else None
  }

  /** The per-directory file count under a file filter. Every count is
      positive. */
  function ScanExisting(listing: seq<Entry>, recognise: string -> bool): (existing: map<int, nat>)
    ensures forall g :: g in existing ==> existing[g] > 0
  {
    var f := e => ExistingEntry(recognise, e);
    var m := LastWins(listing, f);
    forall g | g in m ensures m[g] > 0 {
      var i := LastWinsValue(listing, f, g);
    }
    m
  }

  /** Only numeric directories holding at least one passing name appear in
      the count. */
  lemma ScanExistingKeys(listing: seq<Entry>, recognise: string -> bool)
    ensures forall g :: g in ScanExisting(listing, recognise) <==>
              exists i :: 0 <= i < |listing| && DirKey(listing[i]) == Some(g)
                          && CountMatching(listing[i].node.names, recognise) > 0
  {
    var f := e => ExistingEntry(recognise, e);
    var m := ScanExisting(listing, recognise);
    assert m == LastWins(listing, f);
    LastWinsKeys(listing, f);
    forall g ensures g in m <==>
              exists i :: 0 <= i < |listing| && DirKey(listing[i]) == Some(g)
                          && CountMatching(listing[i].node.names, recognise) > 0
    {
      if g in m {
        var i :| KeyedAt(listing, f, i, g);
      }
      if exists i :: 0 <= i < |listing| && DirKey(listing[i]) == Some(g)
                     && CountMatching(listing[i].node.names, recognise) > 0 {
        var i :| 0 <= i < |listing| && DirKey(listing[i]) == Some(g)
                 && CountMatching(listing[i].node.names, recognise) > 0;
        assert KeyedAt(listing, f, i, g);
      }
    }
  }

  /** `check_existing_files(save_dir)`: `{}` for a missing root, else the
      number of names passing the round-file filter per numeric directory
      (last entry wins). */
  function CheckExistingFiles(root: Option<seq<Entry>>): (existing: map<int, nat>)
    ensures root.None? ==> existing == map[]
    ensures forall g :: g in existing ==> existing[g] > 0
  {
    match root
    case None => map[]
    case Some(listing) => ScanExisting(listing, IsRoundFileName)
  }

  /** A match is in the inventory iff some directory entry parses to it and
      holds at least one name passing the round-file filter. */
  lemma CheckExistingFilesKeys(listing: seq<Entry>)
    ensures forall g :: g in CheckExistingFiles(Some(listing)) <==>
              exists i :: 0 <= i < |listing| && DirKey(listing[i]) == Some(g)
                          && CountMatching(listing[i].node.names, IsRoundFileName) > 0
  {
    ScanExistingKeys(listing, IsRoundFileName);
  }

  /** Counting names without parsing the round token never gives fewer than
      the rounds collected from them. */
  lemma {:induction false} RoundsWithinCount(names: seq<string>, recognise: string -> bool)
    ensures |CollectRounds(names, recognise)| <= CountMatching(names, recognise)
  {
    if |names| > 0 {
      RoundsWithinCount(names[..|names| - 1], recognise);
    }
  }

  /** Every match the index records is also in the file inventory. */
  lemma ExistingCoversIndexKeys(listing: seq<Entry>)
    ensures forall g :: g in GenerateIndex(listing) ==> g in CheckExistingFiles(Some(listing))
  {
    GenerateIndexKeys(listing);
    CheckExistingFilesKeys(listing);
    forall g | g in GenerateIndex(listing) ensures g in CheckExistingFiles(Some(listing)) {
      var i :| 0 <= i < |listing| && DirKey(listing[i]) == Some(g)
               && YieldsRound(listing[i].node.names, IsRoundFileName);
      CollectRoundsNonEmpty(listing[i].node.names, IsRoundFileName);
      RoundsWithinCount(listing[i].node.names, IsRoundFileName);
    }
  }

  /** No two directory entries have names with the same integer value. */
  ghost predicate DistinctNumericDirs(listing: seq<Entry>) {
    forall i, j :: 0 <= i < |listing| && 0 <= j < |listing| && i != j && DirKey(listing[i]).Some?
                   ==> DirKey(listing[i]) != DirKey(listing[j])
  }

  /** With distinct numeric directory names, the inventory counts at least as
      many files per match as the index records rounds. */
  lemma ExistingBoundsIndexRounds(listing: seq<Entry>)
    requires DistinctNumericDirs(listing)
    ensures forall g :: g in GenerateIndex(listing) ==>
              g in CheckExistingFiles(Some(listing))
              && CheckExistingFiles(Some(listing))[g] >= GenerateIndex(listing)[g].totalRounds
  {
    ExistingCoversIndexKeys(listing);
    forall g | g in GenerateIndex(listing)
      ensures CheckExistingFiles(Some(listing))[g] >= GenerateIndex(listing)[g].totalRounds
    {
      SameEntryBehindBoth(listing, g);
    }
  }

  lemma SameEntryBehindBoth(listing: seq<Entry>, g: int)
    requires DistinctNumericDirs(listing)
    requires g in GenerateIndex(listing) && g in CheckExistingFiles(Some(listing))
    ensures CheckExistingFiles(Some(listing))[g] >= GenerateIndex(listing)[g].totalRounds
  {
    var i := IndexValueAt(listing, IsRoundFileName, g);
    var j := ExistingValueAt(listing, IsRoundFileName, g);
    assert i == j;
    RoundsWithinCount(listing[i].node.names, IsRoundFileName);
  }

  /** The index record of `g` comes from the last directory entry that
      parses to `g` and yields rounds. */
  lemma IndexValueAt(listing: seq<Entry>, recognise: string -> bool, g: int) returns (i: int)
    requires g in BuildIndex(listing, recognise)
    ensures 0 <= i < |listing| && DirKey(listing[i]) == Some(g)
    ensures var rounds := CollectRounds(listing[i].node.names, recognise);
            |rounds| > 0 && BuildIndex(listing, recognise)[g] == MakeRecord(listing[i].name, rounds)
    ensures forall k :: i < k < |listing| && DirKey(listing[k]) == Some(g) ==>
              |CollectRounds(listing[k].node.names, recognise)| == 0
  {
    var f := e => IndexEntry(recognise, e);
    assert BuildIndex(listing, recognise) == LastWins(listing, f);
    i := LastWinsValue(listing, f, g);
    forall k | i < k < |listing| && DirKey(listing[k]) == Some(g)
      ensures |CollectRounds(listing[k].node.names, recognise)| == 0
    {
      assert !KeyedAt(listing, f, k, g);
      assert f(listing[k]) == IndexEntry(recognise, listing[k]);
      IndexEntryKeyed(recognise, listing[k], g);
    }
  }

  lemma IndexEntryKeyed(recognise: string -> bool, e: Entry, g: int)
    requires DirKey(e) == Some(g)
    ensures |CollectRounds(e.node.names, recognise)| > 0 ==>
              IndexEntry(recognise, e).Some? && IndexEntry(recognise, e).value.0 == g
  {
  }

  /** The inventory count of `g` comes from the last directory entry that
      parses to `g` and holds passing names. */
  lemma ExistingValueAt(listing: seq<Entry>, recognise: string -> bool, g: int) returns (j: int)
    requires g in ScanExisting(listing, recognise)
    ensures 0 <= j < |listing| && DirKey(listing[j]) == Some(g)
    ensures ScanExisting(listing, recognise)[g] == CountMatching(listing[j].node.names, recognise)
    ensures forall k :: j < k < |listing| && DirKey(listing[k]) == Some(g) ==>
              CountMatching(listing[k].node.names, recognise) == 0
  {
    var h := e => ExistingEntry(recognise, e);
    assert ScanExisting(listing, recognise) == LastWins(listing, h);
    j := LastWinsValue(listing, h, g);
    forall k | j < k < |listing| && DirKey(listing[k]) == Some(g)
      ensures CountMatching(listing[k].node.names, recognise) == 0
    {
      assert !KeyedAt(listing, h, k, g);
    }
  }

  /** Without distinct names the bound fails: directories `5` and `05` both
      parse to match 5; the index keeps the two rounds of `5` (the round file
      of `05` has no numeric token), while the inventory keeps the count of
      `05`, which comes later. */
  lemma CollidingDirectoriesUndercount()
    ensures var listing := CollidingListing();
            && 5 in GenerateIndex(listing) && GenerateIndex(listing)[5].totalRounds == 2
            && 5 in CheckExistingFiles(Some(listing)) && CheckExistingFiles(Some(listing))[5] == 1
  {
    CollidingIndexSide();
    CollidingInventorySide();
  }

  function CollidingListing(): seq<Entry> {
    [Entry("5", Dir([RoundFileName(1), RoundFileName(2)])), Entry("05", Dir([TokenlessName]))]
  }

  lemma CollidingKeys()
    ensures |CollidingListing()| == 2
    ensures DirKey(CollidingListing()[0]) == Some(5) && DirKey(CollidingListing()[1]) == Some(5)
  {
    assert ParseInt("5") == Some(5) && ParseInt("05") == Some(5);
  }

  lemma CollidingIndexSide()
    ensures 5 in GenerateIndex(CollidingListing())
    ensures GenerateIndex(CollidingListing())[5].totalRounds == 2
  {
    var listing := CollidingListing();
    CollidingKeys();
    TwoRoundFiles();
    TokenlessNameCounted();
    assert 5 in GenerateIndex(listing);
    var i := IndexValueAt(listing, IsRoundFileName, 5);
    assert i == 0;
  }

  lemma CollidingInventorySide()
    ensures 5 in CheckExistingFiles(Some(CollidingListing()))
    ensures CheckExistingFiles(Some(CollidingListing()))[5] == 1
  {
    var listing := CollidingListing();
    CollidingKeys();
    TokenlessNameCounted();
    assert 5 in CheckExistingFiles(Some(listing));
    var j := ExistingValueAt(listing, IsRoundFileName, 5);
    assert j == 1;
  }

  /** A name that passes the filter but whose leading token is not a number. */
  const TokenlessName := "x" + RoundMarker

  lemma TwoRoundFiles()
    ensures CollectRounds([RoundFileName(1), RoundFileName(2)], IsRoundFileName) == [1, 2]
  {
    var names := [RoundFileName(1), RoundFileName(2)];
    RoundFileNameIndexed(1);
    RoundFileNameIndexed(2);
    assert names[..1] == [RoundFileName(1)] && names[..1][..0] == [];
  }

  lemma TokenlessNameCounted()
    ensures CollectRounds([TokenlessName], IsRoundFileName) == []
    ensures CountMatching([TokenlessName], IsRoundFileName) == 1
  {
    MarkerInName("x", "");
    assert TokenlessName == "x" + RoundMarker + "";
    assert TokenlessName[|TokenlessName| - 5..] == ".json";
    assert RoundMarker == "_" + RoundMarker[1..];
    assert TokenlessName == "x" + "_" + RoundMarker[1..];
    LeadingTokenOfJoined("x", RoundMarker[1..]);
    assert ParseInt("x") == None;
    assert [TokenlessName][..0] == [];
  }

  // ---------------------------------------------------------------------------
  // Round file names as the downloader writes them

  lemma {:induction false} MarkerInName(p: string, q: string)
    ensures HasSubstring(p + RoundMarker + q, RoundMarker)
  {
    if |p| == 0 {
      assert (p + RoundMarker + q)[..|RoundMarker|] == RoundMarker;
    } else {
      MarkerInName(p[1..], q);
      assert (p + RoundMarker + q)[1..] == p[1..] + RoundMarker + q;
    }
  }

  lemma LeadingTokenOfJoined(a: string, b: string)
    requires forall i :: 0 <= i < |a| ==> a[i] != '_'
    ensures LeadingToken(a + "_" + b) == a
  {
    var name := a + "_" + b;
    var tok := LeadingToken(name);
    assert name[|a|] == '_';
    assert |tok| == |a|;
    assert tok == name[..|a|];
    assert name[..|a|] == a;
  }

  /** The uncompressed name `<round>_0_mjai.json` passes the filter and
      yields its round. */
  lemma RoundFileNameIndexed(r: int)
    ensures IsRoundFileName(RoundFileName(r))
    ensures RoundOf(RoundFileName(r), IsRoundFileName) == Some(r)
  {
    var s := ShowInt(r);
    MarkerFacts();
    EndsWithAppend(s, RoundMarker, ".json");
    MarkerInName(s, "");
    assert s + RoundMarker + "" == s + RoundMarker == RoundFileName(r);
    assert s + RoundMarker == s + "_" + "0_mjai.json";
    TokenOfShown(r, "0_mjai.json");
  }

  /** The literal facts about the marker that the name lemmas use. */
  lemma MarkerFacts()
    ensures RoundMarker == "_" + "0_mjai.json"
    ensures EndsWith(RoundMarker, ".json")
    ensures EndsWith(RoundMarker + ".gz", ".json.gz")
  {
  }

  lemma EndsWithAppend(p: string, t: string, suffix: string)
    requires EndsWith(t, suffix)
    ensures EndsWith(p + t, suffix)
  {
    assert (p + t)[|p + t| - |suffix|..] == t[|t| - |suffix|..];
  }

  /** The leading token of `str(r) + "_" + tail` parses back to `r`. */
  lemma TokenOfShown(r: int, tail: string)
    ensures ParseInt(LeadingToken(ShowInt(r) + "_" + tail)) == Some(r)
  {
    var s := ShowInt(r);
    assert forall i :: 0 <= i < |s| ==> s[i] != '_';
    LeadingTokenOfJoined(s, tail);
    ParseShowInt(r);
  }

  /** The compressed artifact `<round>_0_mjai.json.gz`, the only file a
      successful download leaves behind. */
  function ArtifactName(r: int): string {
    RoundFileName(r) + ".gz"
  }

  /** A match directory after the downloader saved rounds `rs`, in listing order. */
  function ArtifactNames(rs: seq<int>): (names: seq<string>)
    ensures |names| == |rs|
    ensures forall i :: 0 <= i < |rs| ==> names[i] == ArtifactName(rs[i])
  {
    seq(|rs|, i requires 0 <= i < |rs| => ArtifactName(rs[i]))
  }

  /** As written: no name ending in `.gz` passes the `.json` filter, so a
      storage root holding only compressed artifacts yields an empty index
      and an empty inventory. */
  lemma CompressedArtifactsIgnored(listing: seq<Entry>)
    requires forall i :: 0 <= i < |listing| && listing[i].node.Dir? ==>
               forall k :: 0 <= k < |listing[i].node.names| ==> EndsWith(listing[i].node.names[k], ".gz")
    ensures GenerateIndex(listing) == map[]
    ensures CheckExistingFiles(Some(listing)) == map[]
  {
    forall i | 0 <= i < |listing| && listing[i].node.Dir?
      ensures CountMatching(listing[i].node.names, IsRoundFileName) == 0
    {
      var names := listing[i].node.names;
      forall k | 0 <= k < |names| ensures !IsRoundFileName(names[k]) {
        GzNameIsNotJson(names[k]);
      }
    }
    GenerateIndexKeys(listing);
    CheckExistingFilesKeys(listing);
    assert forall g :: g !in GenerateIndex(listing);
    assert forall g :: g !in CheckExistingFiles(Some(listing));
  }

  lemma GzNameIsNotJson(name: string)
    requires EndsWith(name, ".gz")
    ensures !EndsWith(name, ".json")
  {
    assert name[|name| - 1] == ".gz"[2];
  }

  /** In particular a directory written by the downloader is invisible to
      `generate_index`, however many rounds it holds. */
  lemma DownloadedMatchNotIndexed(g: int, rs: seq<int>)
    ensures GenerateIndex([Entry(ShowInt(g), Dir(ArtifactNames(rs)))]) == map[]
    ensures CheckExistingFiles(Some([Entry(ShowInt(g), Dir(ArtifactNames(rs)))])) == map[]
  {
    var listing := [Entry(ShowInt(g), Dir(ArtifactNames(rs)))];
    forall i | 0 <= i < |listing| && listing[i].node.Dir?
      ensures forall k :: 0 <= k < |listing[i].node.names| ==> EndsWith(listing[i].node.names[k], ".gz")
    {
      forall k | 0 <= k < |rs| ensures EndsWith(ArtifactName(rs[k]), ".gz") {
        var n := ArtifactName(rs[k]);
        assert n[|n| - 3..] == ".gz";
      }
    }
    CompressedArtifactsIgnored(listing);
  }

  /** Corrected filter: the uncompressed name or its `.gz` artifact. */
  predicate IsRoundArtifactName(name: string) {
    (EndsWith(name, ".json") || EndsWith(name, ".json.gz")) && HasSubstring(name, RoundMarker)
  }

  /** `generate_index` with the corrected filter. */
  function GenerateIndexCorrected(listing: seq<Entry>): (index: map<int, GameRecord>)
    ensures forall g :: g in index ==> RecordFits(index[g], g)
  {
    BuildIndex(listing, IsRoundArtifactName)
  }

  /** `check_existing_files` with the corrected filter. */
  function CheckExistingFilesCorrected(root: Option<seq<Entry>>): (existing: map<int, nat>)
    ensures root.None? ==> existing == map[]
    ensures forall g :: g in existing ==> existing[g] > 0
  {
    match root
    case None => map[]
    case Some(listing) => ScanExisting(listing, IsRoundArtifactName)
  }

  lemma ArtifactNameIndexed(r: int)
    ensures IsRoundArtifactName(ArtifactName(r))
    ensures RoundOf(ArtifactName(r), IsRoundArtifactName) == Some(r)
  {
    var s := ShowInt(r);
    var n := ArtifactName(r);
    MarkerFacts();
    assert n == s + RoundMarker + ".gz" == s + (RoundMarker + ".gz");
    EndsWithAppend(s, RoundMarker + ".gz", ".json.gz");
    MarkerInName(s, ".gz");
    assert n == s + "_" + ("0_mjai.json" + ".gz");
    TokenOfShown(r, "0_mjai.json" + ".gz");
  }

  lemma {:induction false} ArtifactRoundsCollected(rs: seq<int>)
    ensures CollectRounds(ArtifactNames(rs), IsRoundArtifactName) == rs
  {
    if |rs| > 0 {
      var n := |rs| - 1;
      var init := rs[..n];
      var names := ArtifactNames(rs);
      assert names[..n] == ArtifactNames(init);
      ArtifactRoundsCollected(init);
      assert names[n] == ArtifactName(rs[n]);
      ArtifactNameIndexed(rs[n]);
      CollectRoundsSnoc(names, IsRoundArtifactName, rs);
    }
  }

  /** Collecting the last name extends the rounds collected from the others. */
  lemma CollectRoundsSnoc(names: seq<string>, recognise: string -> bool, rs: seq<int>)
    requires |names| == |rs| > 0
    requires CollectRounds(names[..|names| - 1], recognise) == rs[..|rs| - 1]
    requires RoundOf(names[|names| - 1], recognise) == Some(rs[|rs| - 1])
    ensures CollectRounds(names, recognise) == rs
  {
    CollectRoundsLast(names, recognise, rs[|rs| - 1]);
    assert rs == rs[..|rs| - 1] + [rs[|rs| - 1]];
  }

  lemma CollectRoundsLast(names: seq<string>, recognise: string -> bool, r: int)
    requires |names| > 0 && RoundOf(names[|names| - 1], recognise) == Some(r)
    ensures CollectRounds(names, recognise) == CollectRounds(names[..|names| - 1], recognise) + [r]
  {
  }

  /** Corrected: the downloader's directory for match `g` is indexed under
      `g`, with exactly the saved rounds, in ascending order. */
  lemma DownloadedMatchIndexedWhenCorrected(g: int, rs: seq<int>)
    requires |rs| > 0
    ensures var index := GenerateIndexCorrected([Entry(ShowInt(g), Dir(ArtifactNames(rs)))]);
            && index.Keys == {g}
            && index[g].totalRounds == |rs|
            && multiset(index[g].rounds) == multiset(rs)
            && index[g].directory == ShowInt(g)
  {
    CorrectedIndexOfDownload(g, rs);
  }

  lemma CorrectedIndexOfDownload(g: int, rs: seq<int>)
    requires |rs| > 0
    ensures GenerateIndexCorrected([Entry(ShowInt(g), Dir(ArtifactNames(rs)))]) == map[g := MakeRecord(ShowInt(g), rs)]
  {
    var listing := [Entry(ShowInt(g), Dir(ArtifactNames(rs)))];
    var f := e => IndexEntry(IsRoundArtifactName, e);
    ArtifactDirEntry(g, rs);
    var rec := MakeRecord(ShowInt(g), rs);
    assert f(listing[0]) == Some((g, rec));
    SingleEntryWins(listing, f, g, rec);
  }

  /** The directory the downloader leaves for match `g` is keyed by `g` and
      contributes the saved rounds to the corrected index. */
  lemma ArtifactDirEntry(g: int, rs: seq<int>)
    requires |rs| > 0
    ensures IndexEntry(IsRoundArtifactName, Entry(ShowInt(g), Dir(ArtifactNames(rs))))
            == Some((g, MakeRecord(ShowInt(g), rs)))
  {
    ParseShowInt(g);
    ArtifactRoundsCollected(rs);
  }

  /** A one-entry listing maps the entry's key to its value. */
  lemma SingleEntryWins<V>(listing: seq<Entry>, f: Entry -> Option<(int, V)>, g: int, v: V)
    requires |listing| == 1 && f(listing[0]) == Some((g, v))
    ensures LastWins(listing, f) == map[g := v]
  {
    assert listing[..0] == [];
  }

  /** Corrected: the inventory counts every round the downloader saved. */
  lemma DownloadedMatchCountedWhenCorrected(g: int, rs: seq<int>)
    requires |rs| > 0
    ensures var existing := CheckExistingFilesCorrected(Some([Entry(ShowInt(g), Dir(ArtifactNames(rs)))]));
            existing.Keys == {g} && existing[g] == |rs|
  {
    CorrectedInventoryOfDownload(g, rs);
  }

  lemma CorrectedInventoryOfDownload(g: int, rs: seq<int>)
    requires |rs| > 0
    ensures CheckExistingFilesCorrected(Some([Entry(ShowInt(g), Dir(ArtifactNames(rs)))])) == map[g := |rs|]
  {
    var e := Entry(ShowInt(g), Dir(ArtifactNames(rs)));
    ParseShowInt(g);
    ArtifactRoundsCollected(rs);
    RoundsWithinCount(e.node.names, IsRoundArtifactName);
    assert DirKey(e) == Some(g);
    assert CountMatching(e.node.names, IsRoundArtifactName) == |rs|;
    assert ExistingEntry(IsRoundArtifactName, e) == Some((g, |rs|));
    SingleDirInventory(e, IsRoundArtifactName, g, |rs|);
  }

  /** A one-directory listing is inventoried as that directory's count. */
  lemma SingleDirInventory(e: Entry, recognise: string -> bool, g: int, n: nat)
    requires ExistingEntry(recognise, e) == Some((g, n))
    ensures ScanExisting([e], recognise) == map[g := n]
  {
    var h := e' => ExistingEntry(recognise, e');
    SingleEntryWins([e], h, g, n);
    assert ScanExisting([e], recognise) == LastWins([e], h);
  }
}
