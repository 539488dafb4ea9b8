/** Task construction and the sweep over matches: `download_game` and
    `download_range`. Each task is a (match, round) pair with its URL
    `base/{match}/{round}_0_mjai.json` and its save path
    `join(save_dir, str(match), "{round}_0_mjai.json")`. A batch of tasks is
    run by a worker pool in the source; here a batch is the sequence of its
    per-task outcomes, whose tally does not depend on completion order
    (`Common.CountTrueOrderFree`). */
module Orchestrator {
  import opened Common
  import opened PyInt
  import opened PosixPath
  import opened Probe
  import opened Fetch
  import opened RangeFinder

  /** The downloader's process-wide settings (`base_url`, `retry_times`). */
  datatype Config = Config(baseUrl: string, retryTimes: int)

  /** The remote store as oracles: the outcome of the i-th HEAD and of the
      i-th GET of a URL. */
  datatype Network = Network(head: (string, nat) -> HeadOutcome, get: (string, nat) -> GetOutcome)

  datatype Task = Task(game: int, round: int, url: string, savePath: string)

  /** Rounds `first .. last` inclusive, as `range(first, last + 1)`. */
  datatype RoundSpan = RoundSpan(first: int, last: int) {
    function Size(): nat {
      if last < first then 0 else last - first + 1
    }
    predicate Contains(r: int) {
      first <= r <= last
    }
  }

  function RoundFileName(round: int): string {
    ShowInt(round) + "_0_mjai.json"
  }

  function RoundUrl(baseUrl: string, game: int, round: int): string {
    baseUrl + "/" + ShowInt(game) + "/" + RoundFileName(round)
  }

  /** `os.path.join(save_dir, str(game_id), f"{round_id}_0_mjai.json")`. */
  function SavePath(saveDir: string, game: int, round: int): string {
    Join(Join(saveDir, ShowInt(game)), RoundFileName(round))
  }

  function MakeTask(baseUrl: string, saveDir: string, game: int, round: int): Task {
    Task(game, round, RoundUrl(baseUrl, game, round), SavePath(saveDir, game, round))
  }

  /** The per-match existence gate: the probe of round 1 of `game`. */
  predicate MatchPresent(cfg: Config, net: Network, game: int) {
    CheckUrlExists(cfg.retryTimes, (i: nat) => net.head(RoundUrl(cfg.baseUrl, game, 1), i)).found
  }

  /** Whether `download_file` succeeds for a task. */
  predicate TaskSucceeds(cfg: Config, net: Network, t: Task) {
    DownloadFile(cfg.retryTimes, t.url, t.savePath, (k: nat) => net.get(t.url, k)).ok
  }

  predicate RoundFetched(cfg: Config, net: Network, saveDir: string, game: int, round: int) {
    TaskSucceeds(cfg, net, MakeTask(cfg.baseUrl, saveDir, game, round))
  }

  /** Outcomes of a batch, one per task. */
  function BatchOutcomes(cfg: Config, net: Network, tasks: seq<Task>): (out: seq<bool>)
    ensures |out| == |tasks|
    ensures forall i :: 0 <= i < |tasks| ==> out[i] == TaskSucceeds(cfg, net, tasks[i])
  {
    seq(|tasks|, i requires 0 <= i < |tasks| => TaskSucceeds(cfg, net, tasks[i]))
  }

  /** Outcomes of the tasks for rounds `span` of `game`, in round order. */
  ghost function SpanOutcomes(cfg: Config, net: Network, saveDir: string, game: int, span: RoundSpan): (out: seq<bool>)
    ensures |out| == span.Size()
  {
    seq(span.Size(), i => RoundFetched(cfg, net, saveDir, game, span.first + i))
  }

  /** Entry `i` of a span's outcomes is round `first + i`. */
  lemma SpanOutcomeAt(cfg: Config, net: Network, saveDir: string, game: int, span: RoundSpan, i: int)
    requires 0 <= i < span.Size()
    ensures SpanOutcomes(cfg, net, saveDir, game, span)[i] == RoundFetched(cfg, net, saveDir, game, span.first + i)
  {
  }

  /** A save path's name part is slash-free and its directory part is
      non-empty and does not end in a separator. */
  lemma SavePathShape(saveDir: string, game: int, round: int)
    ensures var dir := Join(saveDir, ShowInt(game));
            && |dir| > 0 && dir[|dir| - 1] != '/'
            && NoSlash(RoundFileName(round))
            && SavePath(saveDir, game, round) == dir + "/" + RoundFileName(round)
  {
    GameDirShape(saveDir, game);
    RoundFileNameNoSlash(round);
    var name := RoundFileName(round);
    assert name[0] != '/';
  }

  /** The match directory `join(save_dir, str(game))` ends in a digit. */
  lemma GameDirShape(saveDir: string, game: int)
    ensures var dir := Join(saveDir, ShowInt(game));
            |dir| > 0 && dir[|dir| - 1] != '/'
  {
    var g := ShowInt(game);
    var dir := Join(saveDir, g);
    assert g[0] != '/';
    assert dir[|dir| - 1] == g[|g| - 1];
  }

  /** A round file name contains no separator. */
  lemma RoundFileNameNoSlash(round: int)
    ensures NoSlash(RoundFileName(round))
  {
    var s := ShowInt(round);
    var name := RoundFileName(round);
    forall i | 0 <= i < |name| ensures name[i] != '/' {
      if i < |s| { assert name[i] == s[i]; }
    }
  }

  /** Different rounds of a match are saved to different paths. */
  lemma SavePathInjective(saveDir: string, game: int, r1: int, r2: int)
    requires SavePath(saveDir, game, r1) == SavePath(saveDir, game, r2)
    ensures r1 == r2
  {
    SavePathShape(saveDir, game, r1);
    SavePathShape(saveDir, game, r2);
    var dir := Join(saveDir, ShowInt(game)) + "/";
    var n1, n2 := RoundFileName(r1), RoundFileName(r2);
    assert dir + n1 == dir + n2;
    assert n1 == (dir + n1)[|dir|..];
    assert n1 == n2;
    var s1, s2 := ShowInt(r1), ShowInt(r2);
    assert |s1| == |s2|;
    assert s1 == n1[..|s1|];
    assert s1 == s2;
    ShowIntInjective(r1, r2);
  }

  /** The artifact of every task is its save path with ".gz" appended. */
  lemma ArtifactOfSavePath(saveDir: string, game: int, round: int)
    ensures CompressedPath(SavePath(saveDir, game, round)) == SavePath(saveDir, game, round) + ".gz"
  {
    SavePathShape(saveDir, game, round);
    CompressedJoinAppendsGz(Join(saveDir, ShowInt(game)), RoundFileName(round));
  }

  /** The task list for rounds `first .. last` of `game`, built by the same
      ascending loop as the source. */
  method BuildTasks(baseUrl: string, saveDir: string, game: int, first: int, last: int) returns (tasks: seq<Task>)
    ensures |tasks| == RoundSpan(first, last).Size()
    ensures forall i :: 0 <= i < |tasks| ==>
              tasks[i].game == game && tasks[i].round == first + i
              && tasks[i] == MakeTask(baseUrl, saveDir, game, first + i)
    ensures forall i, j :: 0 <= i < j < |tasks| ==> tasks[i].savePath != tasks[j].savePath
    ensures forall i :: 0 <= i < |tasks| ==>
              CompressedPath(tasks[i].savePath) == tasks[i].savePath + ".gz"
  {
    tasks := TaskLoop(r => MakeTask(baseUrl, saveDir, game, r), first, last);
    TaskListFacts(baseUrl, saveDir, game, first, tasks);
  }

  /** `for round in range(first, last + 1): tasks.append(task(round))`. */
  method TaskLoop(task: int -> Task, first: int, last: int) returns (tasks: seq<Task>)
    ensures |tasks| == RoundSpan(first, last).Size()
    ensures forall i :: 0 <= i < |tasks| ==> tasks[i] == task(first + i)
  {
    tasks := [];
    var round := first;
    while round <= last
      invariant first <= round && (round <= last + 1 || round == first)
      invariant |tasks| == round - first
      invariant forall i :: 0 <= i < |tasks| ==> tasks[i] == task(first + i)
    {
      tasks := tasks + [task(round)];
      round := round + 1;
    }
  }

  lemma TaskListFacts(baseUrl: string, saveDir: string, game: int, first: int, tasks: seq<Task>)
    requires forall i :: 0 <= i < |tasks| ==> tasks[i] == MakeTask(baseUrl, saveDir, game, first + i)
    ensures forall i, j :: 0 <= i < j < |tasks| ==> tasks[i].savePath != tasks[j].savePath
    ensures forall i :: 0 <= i < |tasks| ==>
              CompressedPath(tasks[i].savePath) == tasks[i].savePath + ".gz"
  {
    forall i, j | 0 <= i < j < |tasks|
      ensures tasks[i].savePath != tasks[j].savePath
    {
      if tasks[i].savePath == tasks[j].savePath {
        SavePathInjective(saveDir, game, first + i, first + j);
      }
    }
    forall i | 0 <= i < |tasks|
      ensures CompressedPath(tasks[i].savePath) == tasks[i].savePath + ".gz"
    {
      ArtifactOfSavePath(saveDir, game, first + i);
    }
  }

  /** `download_game(game_id, max_rounds, save_dir)`: rounds `1 .. max_rounds`
      (the stub's 250 when no count is given), one batch, and the pair
      `(success_count, len(tasks))`. */
  method DownloadGame(cfg: Config, net: Network, game: int, maxRounds: Option<int>, saveDir: string)
    returns (successCount: nat, total: nat)
    ensures total == RoundSpan(1, IfNone(maxRounds, MaxRoundsStub)).Size()
    ensures successCount <= total
    ensures successCount == CountTrue(SpanOutcomes(cfg, net, saveDir, game, RoundSpan(1, IfNone(maxRounds, MaxRoundsStub))))
    ensures successCount == 0 <==>
              forall r :: RoundSpan(1, IfNone(maxRounds, MaxRoundsStub)).Contains(r) ==> !RoundFetched(cfg, net, saveDir, game, r)
    ensures successCount == total <==>
              forall r :: RoundSpan(1, IfNone(maxRounds, MaxRoundsStub)).Contains(r) ==> RoundFetched(cfg, net, saveDir, game, r)
  {
    var n := IfNone(maxRounds, FindMaxRounds(game));
    var tasks := BuildTasks(cfg.baseUrl, saveDir, game, 1, n);
    var results := BatchOutcomes(cfg, net, tasks);
    BatchIsSpan(cfg, net, saveDir, game, RoundSpan(1, n), tasks);
    successCount := CountTrue(results);
    total := |tasks|;
    SpanTally(cfg, net, saveDir, game, RoundSpan(1, n));
  }

  /** The batch built for a span has the span's outcomes, in round order. */
  lemma BatchIsSpan(cfg: Config, net: Network, saveDir: string, game: int, span: RoundSpan, tasks: seq<Task>)
    requires |tasks| == span.Size()
    requires forall i :: 0 <= i < |tasks| ==> tasks[i] == MakeTask(cfg.baseUrl, saveDir, game, span.first + i)
    ensures BatchOutcomes(cfg, net, tasks) == SpanOutcomes(cfg, net, saveDir, game, span)
  {
    var batch, spanned := BatchOutcomes(cfg, net, tasks), SpanOutcomes(cfg, net, saveDir, game, span);
    forall i | 0 <= i < |tasks| ensures batch[i] == spanned[i] {
      assert batch[i] == TaskSucceeds(cfg, net, tasks[i]);
      SpanOutcomeAt(cfg, net, saveDir, game, span, i);
    }
    assert |batch| == |spanned|;
  }

  /** No success in a span's batch iff no round of the span was fetched; all
      successes iff every round was. */
  lemma SpanTally(cfg: Config, net: Network, saveDir: string, game: int, span: RoundSpan)
    ensures var n := CountTrue(SpanOutcomes(cfg, net, saveDir, game, span));
            && (n == 0 <==> forall r :: span.Contains(r) ==> !RoundFetched(cfg, net, saveDir, game, r))
            && (n == span.Size() <==> forall r :: span.Contains(r) ==> RoundFetched(cfg, net, saveDir, game, r))
  {
    SpanNoneFetched(cfg, net, saveDir, game, span);
    SpanAllFetched(cfg, net, saveDir, game, span);
  }

  lemma SpanNoneFetched(cfg: Config, net: Network, saveDir: string, game: int, span: RoundSpan)
    ensures CountTrue(SpanOutcomes(cfg, net, saveDir, game, span)) == 0 <==>
            forall r :: span.Contains(r) ==> !RoundFetched(cfg, net, saveDir, game, r)
  {
    var out := SpanOutcomes(cfg, net, saveDir, game, span);
    CountTrueExtremes(out);
    if CountTrue(out) == 0 {
      forall r | span.Contains(r) ensures !RoundFetched(cfg, net, saveDir, game, r) {
        SpanOutcomeAt(cfg, net, saveDir, game, span, r - span.first);
      }
    } else {
      var i :| 0 <= i < |out| && out[i];
      SpanOutcomeAt(cfg, net, saveDir, game, span, i);
      assert span.Contains(span.first + i);
    }
  }

  lemma SpanAllFetched(cfg: Config, net: Network, saveDir: string, game: int, span: RoundSpan)
    ensures CountTrue(SpanOutcomes(cfg, net, saveDir, game, span)) == span.Size() <==>
            forall r :: span.Contains(r) ==> RoundFetched(cfg, net, saveDir, game, r)
  {
    var out := SpanOutcomes(cfg, net, saveDir, game, span);
    CountTrueExtremes(out);
    if CountTrue(out) == |out| {
      forall r | span.Contains(r) ensures RoundFetched(cfg, net, saveDir, game, r) {
        SpanOutcomeAt(cfg, net, saveDir, game, span, r - span.first);
      }
    } else {
      var i :| 0 <= i < |out| && !out[i];
      SpanOutcomeAt(cfg, net, saveDir, game, span, i);
      assert span.Contains(span.first + i);
    }
  }

  /** The ranged branch of `download_range` is taken when a start round above
      1 or an end round is given. */
  predicate TakesRangedBranch(startRound: int, endRound: Option<int>) {
    startRound > 1 || endRound.Some?
  }

  /** The rounds scheduled for every present match of a sweep. */
  function ScheduledRounds(startRound: int, endRound: Option<int>): (span: RoundSpan)
    ensures forall r :: span.Contains(r) ==> r <= MaxRoundsStub
    ensures TakesRangedBranch(startRound, endRound) ==>
              forall r :: span.Contains(r) <==>
                startRound <= r <= MaxRoundsStub && (endRound.Some? ==> r <= endRound.value)
    ensures !TakesRangedBranch(startRound, endRound) ==>
              forall r :: span.Contains(r) <==> 1 <= r <= MaxRoundsStub
  {
    if TakesRangedBranch(startRound, endRound) then
      var endActual := IfNone(endRound, FindMaxRounds(0));
      RoundSpan(startRound, Min(endActual, MaxRoundsStub))
    else
      RoundSpan(1, MaxRoundsStub)
  }

  /** Successes of a sweep over the swept matches, in match order. */
  ghost function SweepSuccesses(cfg: Config, net: Network, saveDir: string, games: seq<int>, span: RoundSpan): nat {
    if |games| == 0 then 0
    else SweepSuccesses(cfg, net, saveDir, games[..|games| - 1], span)
         + CountTrue(SpanOutcomes(cfg, net, saveDir, games[|games| - 1], span))
  }

  /** The numbers `lo .. hi - 1` for which `keep` holds, ascending. */
  function Kept(lo: int, hi: int, keep: int -> bool): seq<int>
    decreases hi - lo
  {
    if hi <= lo then [] else Kept(lo, hi - 1, keep) + (if keep(hi - 1) then [hi - 1] else [])
  }

  /** `Kept` holds exactly the numbers of the range that pass, each once and
      in ascending order. */
  lemma {:induction false} KeptMembers(lo: int, hi: int, keep: int -> bool)
    ensures forall g :: g in Kept(lo, hi, keep) <==> lo <= g < hi && keep(g)
    ensures forall i, j :: 0 <= i < j < |Kept(lo, hi, keep)| ==> Kept(lo, hi, keep)[i] < Kept(lo, hi, keep)[j]
    decreases hi - lo
  {
    if lo < hi {
      KeptMembers(lo, hi - 1, keep);
      var prev := Kept(lo, hi - 1, keep);
      assert forall i :: 0 <= i < |prev| ==> prev[i] < hi - 1 by {
        forall i | 0 <= i < |prev| ensures prev[i] < hi - 1 {
          assert prev[i] in prev;
        }
      }
    }
  }

  lemma KeptStep(lo: int, hi: int, keep: int -> bool)
    requires lo <= hi
    ensures Kept(lo, hi + 1, keep) == Kept(lo, hi, keep) + (if keep(hi) then [hi] else [])
  {
  }

  /** `download_range(start_game, end_game, start_round, end_round, save_dir)`:
      resolves a missing end match with `find_max_games`, skips every match
      whose first round is absent, schedules the same round span for every
      other match, and totals successes and files. */
  method DownloadRange(cfg: Config, net: Network, startGame: int, endGame: Option<int>,
                       startRound: int, endRound: Option<int>, saveDir: string, ghost bound: nat)
    returns (lastGame: int, swept: seq<int>, downloaded: nat, files: nat)
    requires endGame.None? ==> forall k :: 1 <= k ==> (MatchPresent(cfg, net, k) <==> k <= bound)
    ensures endGame.Some? ==> lastGame == endGame.value
    ensures endGame.None? ==> lastGame == (if bound == 0 then 1 else bound)
    ensures forall g :: g in swept <==> startGame <= g <= lastGame && MatchPresent(cfg, net, g)
    ensures forall i, j :: 0 <= i < j < |swept| ==> swept[i] < swept[j]
    ensures files == |swept| * ScheduledRounds(startRound, endRound).Size()
    ensures downloaded == SweepSuccesses(cfg, net, saveDir, swept, ScheduledRounds(startRound, endRound))
    ensures downloaded <= files
  {
    var present := Presence(cfg, net);
    if endGame.Some? {
      lastGame := endGame.value;
    } else {
      assert PresentExactlyUpTo(present, bound);
      lastGame := FindMaxGames(present, bound);
    }
    swept, downloaded, files := SweepGames(cfg, net, startGame, lastGame, startRound, endRound, saveDir);
    KeptMembers(startGame, lastGame + 1, present);
  }

  /** The existence gate as a predicate on match numbers. */
  function Presence(cfg: Config, net: Network): int -> bool {
    g => MatchPresent(cfg, net, g)
  }

  /** The loop of `download_range` over matches `start_game .. last_game`:
      gated matches are swept in ascending order, each with the same
      scheduled span. */
  method SweepGames(cfg: Config, net: Network, startGame: int, lastGame: int,
                    startRound: int, endRound: Option<int>, saveDir: string)
    returns (swept: seq<int>, downloaded: nat, files: nat)
    ensures swept == Kept(startGame, lastGame + 1, Presence(cfg, net))
    ensures files == |swept| * ScheduledRounds(startRound, endRound).Size()
    ensures downloaded == SweepSuccesses(cfg, net, saveDir, swept, ScheduledRounds(startRound, endRound))
    ensures downloaded <= files
  {
    var present := Presence(cfg, net);
    var span := ScheduledRounds(startRound, endRound);
    var size := span.Size();
    swept, downloaded, files := [], 0, 0;
    var game := startGame;
    while game <= lastGame
      invariant startGame <= game && (game <= lastGame + 1 || game == startGame)
      invariant swept == Kept(startGame, game, present)
      invariant files == |swept| * size
      invariant downloaded == SweepSuccesses(cfg, net, saveDir, swept, span)
      invariant downloaded <= files
    {
      KeptStep(startGame, game, present);
      if present(game) {
        swept, downloaded, files := SweepStep(cfg, net, game, startRound, endRound, saveDir, swept, downloaded, files);
      }
      game := game + 1;
    }
    if game == startGame {
      assert Kept(startGame, lastGame + 1, present) == [];
    }
  }

  /** One present match appended to the sweep, with its successes and files
      added to the totals. */
  method SweepStep(cfg: Config, net: Network, game: int, startRound: int, endRound: Option<int>, saveDir: string,
                   swept: seq<int>, downloaded: nat, files: nat)
    returns (swept': seq<int>, downloaded': nat, files': nat)
    requires files == |swept| * ScheduledRounds(startRound, endRound).Size()
    requires downloaded == SweepSuccesses(cfg, net, saveDir, swept, ScheduledRounds(startRound, endRound))
    requires downloaded <= files
    ensures swept' == swept + [game]
    ensures files' == |swept'| * ScheduledRounds(startRound, endRound).Size()
    ensures downloaded' == SweepSuccesses(cfg, net, saveDir, swept', ScheduledRounds(startRound, endRound))
    ensures downloaded' <= files'
  {
    var ok, total := SweepMatch(cfg, net, game, startRound, endRound, saveDir);
    SweepAppend(cfg, net, saveDir, swept, game, ScheduledRounds(startRound, endRound));
    MulSucc(|swept|, total);
    swept', downloaded', files' := swept + [game], downloaded + ok, files + total;
  }

  /** Sweeping one more match adds its successes. */
  lemma SweepAppend(cfg: Config, net: Network, saveDir: string, games: seq<int>, game: int, span: RoundSpan)
    ensures SweepSuccesses(cfg, net, saveDir, games + [game], span)
            == SweepSuccesses(cfg, net, saveDir, games, span) + CountTrue(SpanOutcomes(cfg, net, saveDir, game, span))
  {
    assert (games + [game])[..|games|] == games;
  }

  lemma MulSucc(a: nat, b: nat)
    ensures (a + 1) * b == a * b + b
  {
  }

  /** One present match of a sweep: the ranged branch builds and runs its own
      batch, the default branch delegates to `download_game`; both schedule
      `ScheduledRounds`. */
  method SweepMatch(cfg: Config, net: Network, game: int, startRound: int, endRound: Option<int>, saveDir: string)
    returns (ok: nat, total: nat)
    ensures total == ScheduledRounds(startRound, endRound).Size()
    ensures ok <= total
    ensures ok == CountTrue(SpanOutcomes(cfg, net, saveDir, game, ScheduledRounds(startRound, endRound)))
  {
    var span := ScheduledRounds(startRound, endRound);
    if TakesRangedBranch(startRound, endRound) {
      var tasks := BuildTasks(cfg.baseUrl, saveDir, game, span.first, span.last);
      var results := BatchOutcomes(cfg, net, tasks);
      BatchIsSpan(cfg, net, saveDir, game, span, tasks);
      ok, total := CountTrue(results), |tasks|;
    } else {
      ok, total := DownloadGame(cfg, net, game, None, saveDir);
    }
  }
}
