/**
 The inbox reader in "latest" mode: the block window it queries next, how it backs off and catches up,
 what its delayed-message check decides, and which batches of a window it hands to the tracker.
 */
module Reader {
  import opened Basics
  import opened BigEndian
  import opened L1Message
  import opened DrainSpec
  import opened Store
  import opened TrackerSpec
  import opened DelayedOps
  import opened BatchOps
  import opened TipCheck
  import opened Tracker

  datatype Config = Config(
    delayBlocks: u64,
    minBlocks: u64,
    defaultBlocks: u64,
    targetMessages: u64,
    maxBlocks: u64)

  predicate Sane(cfg: Config) {
    cfg.minBlocks <= cfg.defaultBlocks <= cfg.maxBlocks
  }

  /** The next block to read and how many blocks to ask for. */
  datatype Position = Position(from: u64, blocks: u64)

  datatype Window = Window(from: u64, end: u64, height: u64)

  /** What the queries of one round come to: nothing to fetch, or how many messages and batches were taken in. */
  datatype Outcome =
    | NothingMissing
    | Fetched(reorging: bool, gap: bool, count: nat)

  /** One round of the loop: the latest parent-chain height it saw, and how its queries went. */
  datatype Round = Round(latest: u64, outcome: Outcome)

  predicate InBounds(cfg: Config, first: u64, pos: Position) {
    first <= pos.from && cfg.minBlocks <= pos.blocks <= cfg.maxBlocks
  }

  predicate GoodWindow(cfg: Config, first: u64, w: Window) {
    first <= w.from <= w.end <= w.height && w.end <= w.from + cfg.maxBlocks
  }

  // ----- one round

  /** The height considered: behind the latest one by the configured delay, and not before the first block. */
  function HeightFor(cfg: Config, first: u64, latest: u64): u64 {
    Max(SaturatingSub(latest, cfg.delayBlocks), first)
  }

  function WindowFor(cfg: Config, first: u64, pos: Position, latest: u64): Window {
    var height := HeightFor(cfg, first, latest);
    var start := Min(pos.from, height);
    Window(start, Min(SaturatingAdd(start, pos.blocks), height), height)
  }

  /** A fifth, rounded up; the sum wraps like a machine word. */
  function Fifth(blocks: u64): u64 {
    (blocks + 4) % U64_LIMIT / 5
  }

  function SaturatingTriple(x: u64): u64 {
    if 3 * x < U64_LIMIT then 3 * x else U64_MAX
  }

  /** Grows after an empty window, shrinks after a full one, and stays within the configured limits. */
  function Resize(cfg: Config, blocks: u64, count: nat): u64 {
    var resized :=
      if count == 0 then SaturatingAdd(blocks, Fifth(blocks))
      else if count >= SaturatingTriple(cfg.targetMessages) / 2 then SaturatingSub(blocks, Fifth(blocks))
      else blocks;
    if resized < cfg.minBlocks then cfg.minBlocks else if resized > cfg.maxBlocks then cfg.maxBlocks else resized
  }

  /** Further back by `back` blocks, or nothing when the first block has been reached. */
  function PrevBlock(first: u64, from: u64, back: u64): Option<u64> {
    if from <= first then None else Some(Max(SaturatingSub(from, back), first))
  }

  function AfterGap(cfg: Config, first: u64, start: u64, blocks: u64, gap: bool): Position {
    if !gap then Position(start, blocks)
    else
      var prev := PrevBlock(first, start, blocks);
      Position(if prev.Some? then prev.value else first, cfg.minBlocks)
  }

  /** The position after a round, or nothing when the loop ends with an error. */
  function Advance(cfg: Config, first: u64, pos: Position, round: Round): Option<Position> {
    var w := WindowFor(cfg, first, pos, round.latest);
    match round.outcome
    case NothingMissing => Some(Position(SaturatingAdd(w.height, 1), cfg.defaultBlocks))
    case Fetched(reorging, gap, count) =>
      var p := AfterGap(cfg, first, w.from, pos.blocks, gap);
      var blocks := Resize(cfg, p.blocks, count);
      if reorging then
        var prev :- PrevBlock(first, p.from, blocks);
        Some(Position(prev, cfg.minBlocks))
      else if count > 0 then Some(Position(SaturatingAdd(w.end, 1), blocks))
      else Some(Position(p.from, blocks))
  }

  /** Each round queries inside the known chain, and leaves a position from which the next one will too. */
  lemma RoundInBounds(cfg: Config, first: u64, pos: Position, round: Round)
    requires Sane(cfg) && InBounds(cfg, first, pos)
    ensures GoodWindow(cfg, first, WindowFor(cfg, first, pos, round.latest))
    ensures var next := Advance(cfg, first, pos, round);
            next.Some? ==> InBounds(cfg, first, next.value)
  {
    hide Resize;
    ResizeLimits(cfg);
  }

  lemma ResizeLimits(cfg: Config)
    requires Sane(cfg)
    ensures forall b: u64, n: nat :: cfg.minBlocks <= Resize(cfg, b, n) <= cfg.maxBlocks
  {
    hide Fifth, SaturatingTriple;
  }

  /** The next window's size: a fifth more after an empty window, a fifth less after a full one, a fifth rounded up. */
  function NextSize(cfg: Config, blocks: nat, count: nat): nat {
    var fifth := if blocks + 4 < 0x1_0000_0000_0000_0000 then (blocks + 4) / 5 else 0;
    var full := (if 3 * cfg.targetMessages < 0x1_0000_0000_0000_0000 then 3 * cfg.targetMessages
                 else 0xFFFF_FFFF_FFFF_FFFF) / 2;
    if count == 0 then if blocks + fifth < cfg.maxBlocks then blocks + fifth else cfg.maxBlocks
    else if count >= full then if blocks - fifth > cfg.minBlocks then blocks - fifth else cfg.minBlocks
    else blocks
  }

  function NextBlock(block: nat): nat {
    if block < 0xFFFF_FFFF_FFFF_FFFF then block + 1 else 0xFFFF_FFFF_FFFF_FFFF
  }

  /** Back by `back` blocks, but not before the first. */
  function Back(first: nat, from: nat, back: nat): nat {
    if from - back < first then first else from - back
  }

  /** What a round does, in numbers: the window it considers, and the position it leaves or the error it ends with. */
  predicate Moves(cfg: Config, first: u64, pos: Position, round: Round, w: Window, next: Option<Position>) {
    var behind := if round.latest < cfg.delayBlocks then 0 else round.latest - cfg.delayBlocks;
    var height := if behind < first then first else behind;
    var start := if pos.from < height then pos.from else height;
    var end := if start + pos.blocks < height then start + pos.blocks else height;
    && w.from == start && w.end == end && w.height == height
    && (round.outcome.NothingMissing? ==>
          next.Some? && next.value.from == NextBlock(height) && next.value.blocks == cfg.defaultBlocks)
    && (round.outcome.Fetched? ==>
          var at := if round.outcome.gap then Back(first, start, pos.blocks) else start;
          var size := NextSize(cfg, if round.outcome.gap then cfg.minBlocks else pos.blocks, round.outcome.count);
          if round.outcome.reorging then
            && (next.None? <==> at <= first)
            && (next.Some? ==> next.value.from == Back(first, at, size) && next.value.blocks == cfg.minBlocks)
          else
            && next.Some? && next.value.blocks == size
            && next.value.from == if round.outcome.count > 0 then NextBlock(end) else at)
  }

  lemma SizeIs(cfg: Config, blocks: u64, count: nat)
    requires Sane(cfg) && cfg.minBlocks <= blocks <= cfg.maxBlocks
    ensures Resize(cfg, blocks, count) == NextSize(cfg, blocks, count)
  {
  }

  lemma RoundMoves(cfg: Config, first: u64, pos: Position, round: Round)
    requires Sane(cfg) && InBounds(cfg, first, pos)
    ensures Moves(cfg, first, pos, round, WindowFor(cfg, first, pos, round.latest), Advance(cfg, first, pos, round))
  {
    hide Resize, NextSize;
    if round.outcome.Fetched? {
      SizeIs(cfg, if round.outcome.gap then cfg.minBlocks else pos.blocks, round.outcome.count);
    }
  }

  /** The wait for the height is over just when the window starts at the next block and leaves the minimum of blocks. */
  lemma WaitIsLongEnough(cfg: Config, first: u64, pos: Position, latest: u64)
    requires pos.from + cfg.delayBlocks + SaturatingSub(cfg.minBlocks, 1) < U64_LIMIT
    ensures latest >= NeededHeight(cfg, pos.from)
       <==> latest >= cfg.delayBlocks + pos.from + if cfg.minBlocks > 0 then cfg.minBlocks - 1 else 0
    ensures latest >= NeededHeight(cfg, pos.from) ==>
              var w := WindowFor(cfg, first, pos, latest);
              w.from == pos.from && w.height >= pos.from + SaturatingSub(cfg.minBlocks, 1)
  {
  }

  /** The height waited for; the inner sum wraps like a machine word. */
  function NeededHeight(cfg: Config, from: u64): u64 {
    SaturatingAdd(from, (cfg.delayBlocks + SaturatingSub(cfg.minBlocks, 1)) % U64_LIMIT)
  }

  // ----- whole runs

  /** The position after some rounds, or nothing once one of them has ended the loop. */
  function Run(cfg: Config, first: u64, pos: Position, rounds: seq<Round>): Option<Position> {
    if rounds == [] then Some(pos)
    else
      var last := |rounds| - 1;
      var before :- Run(cfg, first, pos, rounds[..last]);
      Advance(cfg, first, before, rounds[last])
  }

  /** The windows considered in the rounds before the loop ends. */
  function Windows(cfg: Config, first: u64, pos: Position, rounds: seq<Round>): seq<Window> {
    if rounds == [] then []
    else
      var last := |rounds| - 1;
      var before := Run(cfg, first, pos, rounds[..last]);
      Windows(cfg, first, pos, rounds[..last])
      + if before.Some? then [WindowFor(cfg, first, before.value, rounds[last].latest)] else []
  }

  /** For every sequence of heights and outcomes, every window is good and every position is in bounds. */
  lemma {:induction false} RunsInBounds(cfg: Config, first: u64, pos: Position, rounds: seq<Round>)
    requires Sane(cfg) && InBounds(cfg, first, pos)
    ensures forall w | w in Windows(cfg, first, pos, rounds) :: GoodWindow(cfg, first, w)
    ensures var end := Run(cfg, first, pos, rounds);
            end.Some? ==> InBounds(cfg, first, end.value)
    decreases |rounds|
  {
    hide Advance, WindowFor, GoodWindow;
    if rounds != [] {
      var last := |rounds| - 1;
      RunsInBounds(cfg, first, pos, rounds[..last]);
      var before := Run(cfg, first, pos, rounds[..last]);
      if before.Some? {
        RoundInBounds(cfg, first, before.value, rounds[last]);
      }
    }
  }

  /** The blocks that a round looks at: its window, or everything up to the height when nothing was missing. */
  predicate LooksAt(cfg: Config, first: u64, pos: Position, round: Round, block: nat) {
    var w := WindowFor(cfg, first, pos, round.latest);
    w.from <= block <= if round.outcome.NothingMissing? then w.height else w.end
  }

  ghost predicate Seen(cfg: Config, first: u64, pos: Position, rounds: seq<Round>, block: nat) {
    exists i | 0 <= i < |rounds| ::
      Run(cfg, first, pos, rounds[..i]).Some?
        && LooksAt(cfg, first, Run(cfg, first, pos, rounds[..i]).value, rounds[i], block)
  }

  lemma AdvanceLooks(cfg: Config, first: u64, pos: Position, round: Round, block: nat)
    requires InBounds(cfg, first, pos)
    requires var next := Advance(cfg, first, pos, round);
             next.Some? && pos.from <= block < next.value.from
    ensures LooksAt(cfg, first, pos, round, block)
  {
    hide Resize;
  }

  lemma SeenEarlier(cfg: Config, first: u64, pos: Position, rounds: seq<Round>, block: nat)
    requires rounds != [] && Seen(cfg, first, pos, rounds[..|rounds| - 1], block)
    ensures Seen(cfg, first, pos, rounds, block)
  {
    hide LooksAt, Run;
    var front := rounds[..|rounds| - 1];
    var i :| 0 <= i < |front| && Run(cfg, first, pos, front[..i]).Some?
             && LooksAt(cfg, first, Run(cfg, first, pos, front[..i]).value, front[i], block);
    assert front[..i] == rounds[..i] && front[i] == rounds[i];
  }

  lemma SeenLast(cfg: Config, first: u64, pos: Position, rounds: seq<Round>, block: nat)
    requires rounds != [] && Run(cfg, first, pos, rounds[..|rounds| - 1]).Some?
    requires LooksAt(cfg, first, Run(cfg, first, pos, rounds[..|rounds| - 1]).value, rounds[|rounds| - 1], block)
    ensures Seen(cfg, first, pos, rounds, block)
  {
  }

  /** No block is passed over: all blocks between the start and the position reached have been looked at. */
  lemma {:induction false} NoBlockIsSkipped(cfg: Config, first: u64, pos: Position, rounds: seq<Round>, block: nat)
    requires Sane(cfg) && InBounds(cfg, first, pos)
    requires var end := Run(cfg, first, pos, rounds);
             end.Some? && pos.from <= block < end.value.from
    ensures Seen(cfg, first, pos, rounds, block)
    decreases |rounds|
  {
    hide Advance, LooksAt, Seen;
    var last := |rounds| - 1;
    var before := Run(cfg, first, pos, rounds[..last]).value;
    if block < before.from {
      NoBlockIsSkipped(cfg, first, pos, rounds[..last], block);
      SeenEarlier(cfg, first, pos, rounds, block);
    } else {
      RunsInBounds(cfg, first, pos, rounds[..last]);
      AdvanceLooks(cfg, first, before, rounds[last], block);
      SeenLast(cfg, first, pos, rounds, block);
    }
  }

  /**
   A round without reorg or gap that found nothing missing or took something in, with a height that reaches `block`.
   */
  predicate Progresses(cfg: Config, first: u64, block: nat, round: Round) {
    && (block <= first || block + cfg.delayBlocks <= round.latest)
    && (round.outcome.Fetched? ==> !round.outcome.reorging && !round.outcome.gap && round.outcome.count > 0)
  }

  lemma ProgressStep(cfg: Config, first: u64, pos: Position, block: u64, round: Round)
    requires Sane(cfg) && InBounds(cfg, first, pos) && Progresses(cfg, first, block, round)
    ensures var next := Advance(cfg, first, pos, round);
            next.Some? && next.value.from >= Min(NextBlock(pos.from), NextBlock(block))
    ensures pos.from == block == U64_MAX ==> LooksAt(cfg, first, pos, round, block)
  {
    hide NextSize;
    RoundMoves(cfg, first, pos, round);
  }

  lemma {:induction false} ProgressRun(cfg: Config, first: u64, pos: Position, block: u64, rounds: seq<Round>)
    requires Sane(cfg) && InBounds(cfg, first, pos) && forall r | r in rounds :: Progresses(cfg, first, block, r)
    ensures var end := Run(cfg, first, pos, rounds);
            && end.Some? && InBounds(cfg, first, end.value)
            && end.value.from >= Min(Min(pos.from + |rounds|, NextBlock(block)), U64_MAX)
    decreases |rounds|
  {
    hide Advance, Progresses;
    RunsInBounds(cfg, first, pos, rounds);
    if rounds != [] {
      var last := |rounds| - 1;
      ProgressRun(cfg, first, pos, block, rounds[..last]);
      assert Progresses(cfg, first, block, rounds[last]);
      ProgressStep(cfg, first, Run(cfg, first, pos, rounds[..last]).value, block, rounds[last]);
    }
  }

  /**
   Every block is looked at in the end. Rounds that progress get past any block that their heights reach, by as many
   rounds as there are blocks up to it at the latest; only past the largest 64-bit number there is nowhere to go.
   */
  lemma EveryBlockIsReached(cfg: Config, first: u64, pos: Position, block: u64, rounds: seq<Round>)
    requires Sane(cfg) && InBounds(cfg, first, pos) && forall r | r in rounds :: Progresses(cfg, first, block, r)
    requires pos.from <= block && |rounds| > block - pos.from
    ensures Seen(cfg, first, pos, rounds, block)
    ensures var end := Run(cfg, first, pos, rounds);
            end.Some? && (end.value.from > block <==> block < U64_MAX)
  {
    hide Advance, Progresses, LooksAt, Seen;
    ProgressRun(cfg, first, pos, block, rounds);
    if block < U64_MAX {
      NoBlockIsSkipped(cfg, first, pos, rounds, block);
    } else {
      var last := |rounds| - 1;
      ProgressRun(cfg, first, pos, block, rounds[..last]);
      assert Progresses(cfg, first, block, rounds[last]);
      ProgressStep(cfg, first, Run(cfg, first, pos, rounds[..last]).value, block, rounds[last]);
      SeenLast(cfg, first, pos, rounds, block);
    }
  }

  predicate Reorgs(round: Round) {
    round.outcome.Fetched? && round.outcome.reorging
  }

  lemma ReorgStep(cfg: Config, first: u64, pos: Position, round: Round)
    requires Sane(cfg) && InBounds(cfg, first, pos) && Reorgs(round)
    ensures pos.from == first ==> Advance(cfg, first, pos, round).None?
    ensures var next := Advance(cfg, first, pos, round);
            next.Some? ==> next.value.from <= Max(pos.from - cfg.minBlocks, first)
  {
    hide Fifth;
  }

  lemma {:induction false} ReorgRun(cfg: Config, first: u64, pos: Position, rounds: seq<Round>)
    requires Sane(cfg) && InBounds(cfg, first, pos) && forall r | r in rounds :: Reorgs(r)
    ensures var end := Run(cfg, first, pos, rounds);
            end.Some? ==>
              InBounds(cfg, first, end.value) && end.value.from <= Max(pos.from - |rounds| * cfg.minBlocks, first)
    decreases |rounds|
  {
    hide Advance;
    RunsInBounds(cfg, first, pos, rounds);
    if rounds != [] {
      var last := |rounds| - 1;
      ReorgRun(cfg, first, pos, rounds[..last]);
      var before := Run(cfg, first, pos, rounds[..last]);
      if before.Some? {
        ReorgStep(cfg, first, before.value, rounds[last]);
        assert |rounds| * cfg.minBlocks == last * cfg.minBlocks + cfg.minBlocks;
      }
    }
  }

  /** A reorg that never resolves ends the loop with an error once the blocks back to the first one are used up. */
  lemma PersistentReorgEnds(cfg: Config, first: u64, pos: Position, rounds: seq<Round>)
    requires Sane(cfg) && InBounds(cfg, first, pos) && forall r | r in rounds :: Reorgs(r)
    requires rounds != [] && (|rounds| - 1) * cfg.minBlocks >= pos.from - first
    ensures Run(cfg, first, pos, rounds).None?
  {
    hide Advance;
    var last := |rounds| - 1;
    ReorgRun(cfg, first, pos, rounds[..last]);
    var before := Run(cfg, first, pos, rounds[..last]);
    if before.Some? {
      ReorgStep(cfg, first, before.value, rounds[last]);
    }
  }

  /** Reorging rounds that the heights do not cut short and whose batches leave no gap. */
  predicate StaysPut(cfg: Config, first: u64, from: u64, round: Round) {
    Reorgs(round) && !round.outcome.gap && HeightFor(cfg, first, round.latest) >= from
  }

  /** The minimum has to be positive for that: with zero, the reader stays where it is through any number of rounds. */
  lemma {:induction false} ZeroMinimumStays(cfg: Config, first: u64, pos: Position, rounds: seq<Round>)
    requires cfg.minBlocks == 0 && pos.blocks == 0 && first < pos.from
    requires forall r | r in rounds :: StaysPut(cfg, first, pos.from, r)
    ensures Run(cfg, first, pos, rounds) == Some(pos)
    decreases |rounds|
  {
    hide HeightFor;
    if rounds != [] {
      var last := |rounds| - 1;
      ZeroMinimumStays(cfg, first, pos, rounds[..last]);
      assert StaysPut(cfg, first, pos.from, rounds[last]);
    }
  }

  function ReorgRounds(latest: u64, k: nat): (rounds: seq<Round>)
    ensures |rounds| == k && forall r | r in rounds :: r == Round(latest, Fetched(true, false, 0))
  {
    seq(k, _ => Round(latest, Fetched(true, false, 0)))
  }

  /**
   From where a back-off leaves it, the reader gives up on a reorg that never resolves if and only if the minimum is
   positive.
   */
  lemma ReorgEndsIff(cfg: Config, first: u64, pos: Position, latest: u64)
    requires Sane(cfg) && InBounds(cfg, first, pos) && pos.blocks == cfg.minBlocks && first < pos.from
    requires HeightFor(cfg, first, latest) >= pos.from
    ensures (exists k: nat :: Run(cfg, first, pos, ReorgRounds(latest, k)).None?) <==> cfg.minBlocks > 0
  {
    hide Run, Advance, HeightFor, ReorgRounds;
    if cfg.minBlocks > 0 {
      ReorgEnds(cfg, first, pos, latest, pos.from - first + 1);
    } else {
      forall k: nat
        ensures Run(cfg, first, pos, ReorgRounds(latest, k)).Some?
      {
        ZeroMinimumStays(cfg, first, pos, ReorgRounds(latest, k));
      }
    }
  }

  lemma ReorgEnds(cfg: Config, first: u64, pos: Position, latest: u64, k: nat)
    requires Sane(cfg) && InBounds(cfg, first, pos) && cfg.minBlocks > 0 && k == pos.from - first + 1
    ensures Run(cfg, first, pos, ReorgRounds(latest, k)).None?
  {
    hide Run, Advance, HeightFor;
    AtLeast(k - 1, cfg.minBlocks);
    PersistentReorgEnds(cfg, first, pos, ReorgRounds(latest, k));
  }

  lemma {:induction false} AtLeast(k: nat, m: nat)
    requires m > 0
    ensures k * m >= k
  {
    if k > 0 {
      AtLeast(k - 1, m);
    }
  }

  predicate Empty(round: Round) {
    round.outcome == Fetched(false, false, 0)
  }

  lemma EmptyStep(cfg: Config, first: u64, pos: Position, round: Round)
    requires Sane(cfg) && InBounds(cfg, first, pos) && Empty(round)
    ensures var next := Advance(cfg, first, pos, round);
            next.Some? && next.value.from <= pos.from
    ensures WindowFor(cfg, first, pos, round.latest).end <= pos.from + cfg.maxBlocks
  {
    hide Resize;
  }

  /** While something is missing but windows come back empty, the reader never looks further than the largest window. */
  lemma {:induction false} EmptyWindowsStall(cfg: Config, first: u64, pos: Position, rounds: seq<Round>)
    requires Sane(cfg) && InBounds(cfg, first, pos) && forall r | r in rounds :: Empty(r)
    ensures var end := Run(cfg, first, pos, rounds);
            end.Some? && end.value.from <= pos.from
    ensures forall w | w in Windows(cfg, first, pos, rounds) :: w.end <= pos.from + cfg.maxBlocks
    decreases |rounds|
  {
    hide Advance, WindowFor;
    if rounds != [] {
      var last := |rounds| - 1;
      EmptyWindowsStall(cfg, first, pos, rounds[..last]);
      RunsInBounds(cfg, first, pos, rounds[..last]);
      EmptyStep(cfg, first, Run(cfg, first, pos, rounds[..last]).value, rounds[last]);
    }
  }

  /** An empty round whose height reaches `block`. */
  predicate Reaches(cfg: Config, first: u64, block: nat, round: Round) {
    Empty(round) && HeightFor(cfg, first, round.latest) >= block
  }

  /** A window of some blocks grows by one at least, until it is as large as it may be; one of no blocks stays empty. */
  lemma EmptyGrows(cfg: Config, first: u64, pos: Position, round: Round)
    requires Sane(cfg) && InBounds(cfg, first, pos) && Reaches(cfg, first, pos.from, round)
    requires cfg.maxBlocks + 4 < U64_LIMIT
    ensures var next := Advance(cfg, first, pos, round);
            && next.Some? && next.value.from == pos.from
            && (pos.blocks == 0 ==> next.value.blocks == 0)
            && (pos.blocks > 0 ==> next.value.blocks >= Min(pos.blocks + 1, cfg.maxBlocks) && next.value.blocks > 0)
  {
  }

  lemma {:induction false} EmptyRun(cfg: Config, first: u64, pos: Position, rounds: seq<Round>)
    requires Sane(cfg) && InBounds(cfg, first, pos) && cfg.maxBlocks + 4 < U64_LIMIT
    requires forall r | r in rounds :: Reaches(cfg, first, pos.from, r)
    ensures var end := Run(cfg, first, pos, rounds);
            && end.Some? && end.value.from == pos.from && InBounds(cfg, first, end.value)
            && (pos.blocks == 0 ==> end.value.blocks == 0)
            && (pos.blocks > 0 ==> end.value.blocks >= Min(|rounds|, cfg.maxBlocks) && end.value.blocks > 0)
    decreases |rounds|
  {
    hide Advance, Reaches;
    if rounds != [] {
      var last := |rounds| - 1;
      EmptyRun(cfg, first, pos, rounds[..last]);
      var before := Run(cfg, first, pos, rounds[..last]).value;
      assert Reaches(cfg, first, pos.from, rounds[last]);
      EmptyGrows(cfg, first, before, rounds[last]);
      RoundInBounds(cfg, first, before, rounds[last]);
    }
  }

  /** How far empty windows reach in the end. */
  function EmptyReach(cfg: Config, pos: Position): nat {
    if pos.blocks == 0 then 0 else cfg.maxBlocks
  }

  lemma ReachLooks(cfg: Config, first: u64, pos: Position, from: u64, round: Round, block: nat)
    requires Empty(round) && pos.from == from <= block <= HeightFor(cfg, first, round.latest)
    ensures LooksAt(cfg, first, pos, round, block) <==> block <= from + pos.blocks
  {
    hide HeightFor;
    var w := WindowFor(cfg, first, pos, round.latest);
    assert w.from == from && w.end == Min(SaturatingAdd(from, pos.blocks), w.height);
    assert round.outcome.Fetched?;
    assert block <= w.height;
    assert LooksAt(cfg, first, pos, round, block) <==> w.from <= block <= w.end;
    assert block <= w.end <==> block <= SaturatingAdd(from, pos.blocks);
  }

  /**
   Exactly which blocks are looked at while something is missing but windows come back empty: once there have been more
   rounds than the largest window has blocks, all those within the largest window; but only the next block to read if
   the window has no blocks, as after every back-off with a minimum of zero. No number of further rounds looks at any
   other.
   */
  lemma EmptyWindowsReach(cfg: Config, first: u64, pos: Position, rounds: seq<Round>, block: nat)
    requires Sane(cfg) && InBounds(cfg, first, pos) && cfg.maxBlocks + 4 < U64_LIMIT
    requires pos.from <= block && |rounds| > cfg.maxBlocks && forall r | r in rounds :: Reaches(cfg, first, block, r)
    ensures Seen(cfg, first, pos, rounds, block) <==> block <= pos.from + EmptyReach(cfg, pos)
  {
    hide Run, LooksAt, Reaches;
    forall i | 0 <= i < |rounds|
      ensures Run(cfg, first, pos, rounds[..i]).Some?
      ensures LooksAt(cfg, first, Run(cfg, first, pos, rounds[..i]).value, rounds[i], block)
         ==> block <= pos.from + EmptyReach(cfg, pos)
      ensures i == cfg.maxBlocks && block <= pos.from + EmptyReach(cfg, pos)
         ==> LooksAt(cfg, first, Run(cfg, first, pos, rounds[..i]).value, rounds[i], block)
    {
      ReachPrefix(cfg, first, pos, rounds, i, block);
      EmptyRun(cfg, first, pos, rounds[..i]);
      assert Reaches(cfg, first, block, rounds[i]);
      ReachRound(cfg, first, block, rounds[i]);
      ReachLooks(cfg, first, Run(cfg, first, pos, rounds[..i]).value, pos.from, rounds[i], block);
    }
    if block <= pos.from + EmptyReach(cfg, pos) {
      var i := cfg.maxBlocks;
      assert Run(cfg, first, pos, rounds[..i]).Some?
             && LooksAt(cfg, first, Run(cfg, first, pos, rounds[..i]).value, rounds[i], block);
    }
  }

  lemma ReachRound(cfg: Config, first: u64, block: nat, round: Round)
    requires Reaches(cfg, first, block, round)
    ensures Empty(round) && block <= HeightFor(cfg, first, round.latest)
  {
  }

  lemma ReachPrefix(cfg: Config, first: u64, pos: Position, rounds: seq<Round>, n: nat, block: nat)
    requires n <= |rounds| && pos.from <= block && forall r | r in rounds :: Reaches(cfg, first, block, r)
    ensures forall r | r in rounds[..n] :: Reaches(cfg, first, pos.from, r)
  {
    forall r | r in rounds[..n]
      ensures Reaches(cfg, first, pos.from, r)
    {
      assert r in rounds;
    }
  }

  // ----- the reader itself

  /** Height `i` is the first that is not below `needed`. */
  predicate IsEnough(heights: seq<u64>, i: nat, needed: u64)
    requires i < |heights|
  {
    heights[i] >= needed && forall j | 0 <= j < i :: heights[j] < needed
  }

  /** What a check of the delayed messages finds. */
  datatype Check = Check(reorging: bool, missing: bool)

  /** The parent-chain block of the last of `n` delayed messages, as it is stored. */
  predicate LastBlock(kv: KeyValues, n: nat, block: nat)
    requires n > 0
  {
    var own, row := DelayedKey(n - 1), Row(ParentChainBlockTable, n - 1);
    if own !in kv then LegacyDelayedKey(n - 1) in kv && block == 0
    else if row in kv then kv[row] == StoredNumber(block)
    else kv[own].StoredDelayed? && |kv[own].bytes| >= 113 && block == FromBytes(kv[own].bytes[33..41])
  }

  /**
   A reader that starts over `n` delayed messages goes back to the block of the last, or to the first block of all.
   */
  ghost predicate StartsAt(kv: KeyValues, n: nat, first: u64, from: u64) {
    if n == 0 then from == first
    else exists block: nat :: LastBlock(kv, n, block) && from == if block < first then first else block
  }

  ghost predicate BlocksFit(kv: KeyValues) {
    forall i: nat | Row(ParentChainBlockTable, i) in kv && kv[Row(ParentChainBlockTable, i)].StoredNumber? ::
      kv[Row(ParentChainBlockTable, i)].number < 0x1_0000_0000_0000_0000
  }

  lemma RecordIs(keccak: Keccak, kv: KeyValues, i: nat)
    ensures DelayedRecord(kv, i).Ok? ==> LastBlock(kv, i + 1, DelayedRecord(kv, i).value.2)
    ensures DelayedInv(keccak, kv) && BlocksFit(kv) && i < NumberAt(kv, DelayedCountKey).value ==>
              DelayedRecord(kv, i).Ok? && DelayedRecord(kv, i).value.2 < U64_LIMIT
  {
    hide AccAt, FromBytes;
    if DelayedInv(keccak, kv) && i < NumberAt(kv, DelayedCountKey).value {
      assert Linked(keccak, kv, i);
      assert Row(ParentChainBlockTable, i) in kv ==> kv[Row(ParentChainBlockTable, i)].StoredNumber?;
    }
  }

  lemma RecordStarts(kv: KeyValues, n: nat, first: u64)
    requires n > 0 && DelayedRecord(kv, n - 1).Ok? && DelayedRecord(kv, n - 1).value.2 < U64_LIMIT
    requires LastBlock(kv, n, DelayedRecord(kv, n - 1).value.2)
    ensures StartsAt(kv, n, first, Max(DelayedRecord(kv, n - 1).value.2, first))
  {
    hide DelayedRecord, LastBlock;
  }

  lemma CountIsThere(keccak: Keccak, kv: KeyValues)
    ensures DelayedInv(keccak, kv) ==> NumberAt(kv, DelayedCountKey).Some?
  {
  }

  lemma EmptyStarts(kv: KeyValues, first: u64)
    ensures StartsAt(kv, 0, first, first)
  {
  }

  /** The accumulator of the last of `n` delayed messages is not the parent chain's, or not zero if it gives none. */
  predicate Differs(keccak: Keccak, kv: KeyValues, l1Acc: nat -> Option<Hash32>, n: nat) {
    && n > 0
    && var theirs := l1Acc(n - 1);
       if theirs.Some? then AccAt(keccak, kv, n - 1) != Ok(theirs.value)
       else AccAt(keccak, kv, n - 1) != Ok(ZERO_HASH)
  }

  class InboxReader {
    const tracker: InboxTracker
    const firstMessageBlock: u64
    const config: Config
    var from: u64
    var blocksToFetch: u64
    ghost var queries: seq<Window>

    constructor (tracker: InboxTracker, firstMessageBlock: u64, config: Config)
      requires Sane(config)
      ensures this.tracker == tracker && this.firstMessageBlock == firstMessageBlock && this.config == config
      ensures queries == [] && InBounds(config, firstMessageBlock, At())
    {
      this.tracker := tracker;
      this.firstMessageBlock := firstMessageBlock;
      this.config := config;
      from := firstMessageBlock;
      blocksToFetch := config.defaultBlocks;
      queries := [];
    }

    function At(): Position
      reads this
    {
      Position(from, blocksToFetch)
    }

    /** Starts at the parent-chain block of the last delayed message, and never before the first message block. */
    method Start() returns (ok: bool)
      requires Sane(config)
      modifies this
      ensures queries == old(queries)
      ensures ok ==> InBounds(config, firstMessageBlock, At()) && blocksToFetch == config.defaultBlocks
      ensures ok ==> var count := NumberAt(tracker.db.kv, DelayedCountKey);
                     count.Some? && StartsAt(tracker.db.kv, count.value, firstMessageBlock, from)
      ensures DelayedInv(tracker.keccak, tracker.db.kv) && BlocksFit(tracker.db.kv) ==> ok
    {
      hide DelayedRecord, DelayedInv, StartsAt, BlocksFit;
      var kv := tracker.db.kv;
      var count := NumberAt(kv, DelayedCountKey);
      CountIsThere(tracker.keccak, kv);
      if count.None? {
        return false;
      }
      blocksToFetch := config.defaultBlocks;
      from := firstMessageBlock;
      if count.value > 0 {
        var record := DelayedRecord(kv, count.value - 1);
        RecordIs(tracker.keccak, kv, count.value - 1);
        if record.Err? || record.value.2 >= U64_LIMIT {
          return false;
        }
        from := Max(record.value.2, firstMessageBlock);
        RecordStarts(kv, count.value, firstMessageBlock);
      } else {
        EmptyStarts(kv, firstMessageBlock);
      }
      return true;
    }

    /** Takes heights as they arrive until one is high enough. */
    method AwaitHeight(heights: seq<u64>) returns (latest: Option<u64>)
      ensures latest.Some? ==>
                exists i | 0 <= i < |heights| ::
                  heights[i] == latest.value && IsEnough(heights, i, NeededHeight(config, from))
      ensures latest.None? ==> forall h | h in heights :: h < NeededHeight(config, from)
    {
      for i := 0 to |heights|
        invariant forall j | 0 <= j < i :: heights[j] < NeededHeight(config, from)
      {
        if heights[i] >= NeededHeight(config, from) {
          assert IsEnough(heights, i, NeededHeight(config, from));
          return Some(heights[i]);
        }
      }
      return None;
    }

    /** The height a round works with, behind the latest one by the configured delay. */
    method DelayedHeight(latest: u64) returns (height: u64)
      ensures height == HeightFor(config, firstMessageBlock, latest)
    {
      height := latest;
      if config.delayBlocks > 0 {
        if height >= config.delayBlocks {
          height := height - config.delayBlocks;
        } else {
          height := 0;
        }
      }
      if height < firstMessageBlock {
        height := firstMessageBlock;
      }
    }

    /** Goes back when the batches fetched do not continue the stored ones. */
    method BackUp()
      modifies this
      ensures At() == AfterGap(config, firstMessageBlock, old(from), old(blocksToFetch), true)
      ensures queries == old(queries)
    {
      var prev := PrevBlock(firstMessageBlock, from, blocksToFetch);
      from := if prev.Some? then prev.value else firstMessageBlock;
      blocksToFetch := config.minBlocks;
    }

    method ResizeWindow(count: nat)
      modifies this`blocksToFetch
      ensures blocksToFetch == Resize(config, old(blocksToFetch), count)
    {
      if count == 0 {
        blocksToFetch := SaturatingAdd(blocksToFetch, Fifth(blocksToFetch));
      } else if count >= SaturatingTriple(config.targetMessages) / 2 {
        blocksToFetch := SaturatingSub(blocksToFetch, Fifth(blocksToFetch));
      }
      if blocksToFetch < config.minBlocks {
        blocksToFetch := config.minBlocks;
      } else if blocksToFetch > config.maxBlocks {
        blocksToFetch := config.maxBlocks;
      }
    }

    /** One round of the loop; `running` is false when it ends with an error. */
    method Iterate(latest: u64, outcome: Outcome) returns (running: bool)
      requires Sane(config) && InBounds(config, firstMessageBlock, At())
      modifies this
      ensures var next := Advance(config, firstMessageBlock, old(At()), Round(latest, outcome));
              running == next.Some? && (running ==> At() == next.value)
      ensures running ==> InBounds(config, firstMessageBlock, At())
      ensures var w := WindowFor(config, firstMessageBlock, old(At()), latest);
              GoodWindow(config, firstMessageBlock, w)
              && Moves(config, firstMessageBlock, old(At()), Round(latest, outcome), w,
                       if running then Some(At()) else None)
              && queries == if outcome.NothingMissing? then old(queries) else old(queries) + [w]
    {
      hide Resize, HeightFor, InBounds, GoodWindow, SaturatingAdd, PrevBlock, Moves;
      RoundInBounds(config, firstMessageBlock, At(), Round(latest, outcome));
      RoundMoves(config, firstMessageBlock, At(), Round(latest, outcome));
      var height := DelayedHeight(latest);
      if from > height {
        from := height;
      }
      if outcome.NothingMissing? {
        from := SaturatingAdd(height, 1);
        blocksToFetch := config.defaultBlocks;
        return true;
      }
      var end := Min(SaturatingAdd(from, blocksToFetch), height);
      queries := queries + [Window(from, end, height)];
      if outcome.gap {
        BackUp();
      }
      ResizeWindow(outcome.count);
      if outcome.reorging {
        var prev := PrevBlock(firstMessageBlock, from, blocksToFetch);
        if prev.None? {
          return false;
        }
        from := prev.value;
        blocksToFetch := config.minBlocks;
      } else if outcome.count > 0 {
        from := SaturatingAdd(end, 1);
      }
      return true;
    }

    /**
     Compares the delayed messages with the parent chain at their last common position, after dropping those
     beyond the parent chain's count. An unanswered count is taken for zero, an unanswered accumulator too.
     */
    method CheckDelayed(l1Count: Option<nat>, l1Acc: nat -> Option<Hash32>, ghost l1: seq<L1IncomingMessage>)
      returns (r: Result<Check>)
      requires tracker.Coherent()
      modifies tracker.db, tracker`cache
      ensures tracker.Coherent()
      ensures var kv, n := old(tracker.db.kv), if l1Count.Some? then l1Count.value else 0;
              r.Ok? ==> NumberAt(kv, DelayedCountKey).Some?
                        && var ours := NumberAt(kv, DelayedCountKey).value;
                        && tracker.db.kv == (if ours > n then ReorgDelayed(kv, n) else kv)
                        && (r.value.missing <==> ours < n)
                        && (r.value.reorging <==> Differs(tracker.keccak, tracker.db.kv, l1Acc, Min(ours, n)))
      ensures var kv, n := old(tracker.db.kv), if l1Count.Some? then l1Count.value else 0;
              r.Ok? <==> var ours := NumberAt(kv, DelayedCountKey);
                         && ours.Some?
                         && (ours.value > n ==> SequencedReadable(kv, n))
                         && (Min(ours.value, n) > 0 ==>
                               AccAt(tracker.keccak, if ours.value > n then ReorgDelayed(kv, n) else kv,
                                     Min(ours.value, n) - 1).Ok?)
      ensures Answers(tracker.keccak, l1Count, l1Acc, l1) && DelayedInv(tracker.keccak, old(tracker.db.kv)) && r.Ok? ==>
                var n := Min(|l1|, NumberAt(old(tracker.db.kv), DelayedCountKey).value);
                && DelayedInv(tracker.keccak, tracker.db.kv)
                && NumberAt(tracker.db.kv, DelayedCountKey) == Some(n)
                && (Distinguishes(tracker.keccak, tracker.db.kv, l1, n) ==>
                      (r.value.reorging <==> !SameChain(StoredChain(tracker.keccak, tracker.db.kv, n), l1[..n])))
    {
      hide AccAt, ReorgDelayed, DelayedInv, SameChain, ChainAcc, StoredChain, Distinguishes, SequencedReadable;
      var checking: nat := if l1Count.Some? then l1Count.value else 0;
      var counted := NumberAt(tracker.db.kv, DelayedCountKey);
      if counted.None? {
        return Err;
      }
      var missing := false;
      ghost var kv := tracker.db.kv;
      ghost var sound := DelayedInv(tracker.keccak, kv);
      if counted.value < checking {
        checking := counted.value;
        missing := true;
      } else if counted.value > checking {
        var ok := tracker.ReorgDelayedTo(checking);
        if !ok {
          return Err;
        }
        RolledBack(tracker.keccak, kv, checking);
      }
      var reorging := false;
      if checking > 0 {
        var theirs := l1Acc(checking - 1);
        var ours := AccAt(tracker.keccak, tracker.db.kv, checking - 1);
        if ours.Err? {
          return Err;
        }
        reorging := ours.value != if theirs.Some? then theirs.value else ZERO_HASH;
      }
      if Answers(tracker.keccak, l1Count, l1Acc, l1) && sound {
        if checking > 0 {
          assert l1Acc(checking - 1) == Some(ChainAcc(tracker.keccak, l1[..checking - 1 + 1]));
        }
        if Distinguishes(tracker.keccak, tracker.db.kv, l1, checking) {
          CheckDecides(tracker.keccak, tracker.db.kv, l1, checking);
        }
      }
      return Ok(Check(reorging, missing));
    }

    /** Probes for the last batch with metadata; after the count has been repaired there is nothing to adjust. */
    method ExpectedBatch() returns (expected: nat)
      requires tracker.Coherent()
      modifies tracker.db, tracker`cache
      ensures tracker.Coherent()
      ensures forall c: nat | BatchInv(old(tracker.db.kv), c) :: expected == c
    {
      hide BatchInv, Repaired, ReadMeta, WithRepairedCount;
      ghost var kv := tracker.db.kv;
      var counted := tracker.GetBatchCount();
      expected := if counted.Ok? then counted.value else 0;
      ProbeStarts(kv, expected, counted);
      if expected > 0 {
        var probe: nat := expected - 1;
        while probe > 0
          invariant tracker.Coherent() && tracker.db.kv == WithRepairedCount(kv)
          invariant probe + 1 <= expected
          invariant forall c: nat | BatchInv(kv, c) :: probe + 1 == expected == c
          decreases probe
        {
          var meta := tracker.GetBatchMetadata(probe);
          if meta.Ok? {
            break;
          }
          ProbeFinds(kv, probe);
          probe := probe - 1;
        }
        if probe + 1 != expected {
          expected := probe + 1;
        }
      }
    }

    /** The message count of the latest batch posted at or before a parent-chain block, or zero. */
    method RecentParentChainBlockToMsg(block: nat) returns (r: Result<nat>)
      requires tracker.Coherent()
      modifies tracker.db, tracker`cache
      ensures tracker.Coherent()
      ensures forall c: nat | BatchInv(old(tracker.db.kv), c) ::
                r.Ok? && LastPosted(old(tracker.db.kv), c, block, r.value)
    {
      hide BatchInv, Repaired, ReadMeta, WithRepairedCount, PostedLater, PostedEarlier;
      ghost var kv := tracker.db.kv;
      var counted := tracker.GetBatchCount();
      ProbeStarts(kv, if counted.Ok? then counted.value else 0, counted);
      if counted.Err? {
        return Err;
      }
      var batch: nat := counted.value;
      while batch > 0
        invariant tracker.Coherent() && tracker.db.kv == WithRepairedCount(kv)
        invariant forall c: nat | BatchInv(kv, c) ::
                    batch <= c && forall j: nat | batch <= j < c :: PostedLater(kv, j, block)
        decreases batch
      {
        batch := batch - 1;
        var meta := tracker.GetBatchMetadata(batch);
        StoredMetas(kv, batch, block);
        if meta.Err? {
          return Err;
        }
        if meta.value.parentChainBlock <= block {
          return Ok(meta.value.messageCount);
        }
      }
      return Ok(0);
    }
  }

  predicate PostedLater(kv: KeyValues, i: nat, block: nat) {
    MetaKey(i) in kv && kv[MetaKey(i)].StoredMeta? && kv[MetaKey(i)].meta.parentChainBlock > block
  }

  predicate PostedEarlier(kv: KeyValues, i: nat, block: nat, messages: nat) {
    && MetaKey(i) in kv && kv[MetaKey(i)].StoredMeta?
    && kv[MetaKey(i)].meta.parentChainBlock <= block && kv[MetaKey(i)].meta.messageCount == messages
  }

  /** `messages` is the count of the last of `c` batches posted at or before `block`, or zero when all are later. */
  ghost predicate LastPosted(kv: KeyValues, c: nat, block: nat, messages: nat) {
    || (messages == 0 && forall i: nat | i < c :: PostedLater(kv, i, block))
    || (exists i: nat :: i < c && PostedEarlier(kv, i, block, messages)
                         && forall j: nat | i < j < c :: PostedLater(kv, j, block))
  }

  lemma ProbeStarts(kv: KeyValues, expected: nat, counted: Result<nat>)
    requires var stored := NumberAt(kv, BatchCountKey);
             if stored.None? then counted.Err? else counted == Ok(Repaired(kv, stored.value))
    requires expected == if counted.Ok? then counted.value else 0
    ensures forall c: nat | BatchInv(kv, c) :: counted.Ok? && expected == c
  {
    forall c: nat | BatchInv(kv, c)
      ensures counted.Ok? && expected == c
    {
      RepairedIsCount(kv, c, NumberAt(kv, BatchCountKey).value);
    }
  }

  lemma RepairedMeta(kv: KeyValues, i: nat)
    ensures ReadMeta(WithRepairedCount(kv), i) == ReadMeta(kv, i)
  {
  }

  lemma ProbeFinds(kv: KeyValues, probe: nat)
    ensures ReadMeta(WithRepairedCount(kv), probe).Err? ==> forall c: nat | BatchInv(kv, c) :: c <= probe
  {
    RepairedMeta(kv, probe);
  }

  lemma StoredMetas(kv: KeyValues, i: nat, block: nat)
    ensures var meta := ReadMeta(WithRepairedCount(kv), i);
            && (forall c: nat | BatchInv(kv, c) && i < c :: meta.Ok?)
            && (meta.Ok? ==> if meta.value.parentChainBlock <= block
                             then PostedEarlier(kv, i, block, meta.value.messageCount) else PostedLater(kv, i, block))
  {
    RepairedMeta(kv, i);
  }

  // ----- what the delayed check decides

  /** The parent chain answers with its own count and accumulators. */
  ghost predicate Answers(keccak: Keccak, l1Count: Option<nat>, l1Acc: nat -> Option<Hash32>,
                          l1: seq<L1IncomingMessage>) {
    && l1Count == Some(|l1|)
    && forall i: nat | i < |l1| :: l1Acc(i) == Some(ChainAcc(keccak, l1[..i + 1]))
  }

  /** The hash does not collide on what the two chains hash. */
  ghost predicate Distinguishes(keccak: Keccak, kv: KeyValues, l1: seq<L1IncomingMessage>, n: nat)
    requires DelayedInv(keccak, kv) && n <= NumberAt(kv, DelayedCountKey).value && n <= |l1|
  {
    CollisionFree(keccak, Preimages(keccak, StoredChain(keccak, kv, n)) + Preimages(keccak, l1[..n]))
  }

  lemma RolledBack(keccak: Keccak, kv: KeyValues, n: nat)
    ensures DelayedInv(keccak, kv) && n <= NumberAt(kv, DelayedCountKey).value ==>
              DelayedInv(keccak, ReorgDelayed(kv, n)) && NumberAt(ReorgDelayed(kv, n), DelayedCountKey) == Some(n)
  {
    ReorgCount(kv, n);
    if DelayedInv(keccak, kv) {
      hide DelayedInv, ReorgDelayed;
      ReorgKeepsChain(keccak, kv, n);
    }
  }

  lemma ReorgCount(kv: KeyValues, n: nat)
    ensures NumberAt(ReorgDelayed(kv, n), DelayedCountKey) == Some(n)
  {
    CutCount(kv, Eager(kv, n), n, n);
  }

  /** The check at count `n` is decided by the chains below `n`. */
  ghost predicate Decided(keccak: Keccak, kv: KeyValues, l1: seq<L1IncomingMessage>, n: nat)
    requires DelayedInv(keccak, kv) && n <= NumberAt(kv, DelayedCountKey).value && n <= |l1|
  {
    && (n == 0 ==> SameChain(StoredChain(keccak, kv, n), l1[..n]))
    && (n > 0 ==> (AccAt(keccak, kv, n - 1) == Ok(ChainAcc(keccak, l1[..n]))
                   <==> SameChain(StoredChain(keccak, kv, n), l1[..n])))
  }

  lemma CheckDecides(keccak: Keccak, kv: KeyValues, l1: seq<L1IncomingMessage>, n: nat)
    requires DelayedInv(keccak, kv) && n <= NumberAt(kv, DelayedCountKey).value && n <= |l1|
    requires Distinguishes(keccak, kv, l1, n)
    ensures Decided(keccak, kv, l1, n)
  {
    hide AccAt, DelayedInv, ChainAcc, CollisionFree, Preimages;
    if n > 0 {
      TipCheckSound(keccak, kv, l1, n);
    }
  }

  // ----- the batches handed on

  predicate SortedByNumber(batches: seq<SequencerInboxBatch>) {
    forall i, j | 0 <= i < j < |batches| :: batches[i].sequenceNumber <= batches[j].sequenceNumber
  }

  /** `b` is the first of `batches` with its number. */
  ghost predicate IsFirst(batches: seq<SequencerInboxBatch>, b: SequencerInboxBatch) {
    exists j :: FirstAt(batches, j, b)
  }

  predicate FirstAt(batches: seq<SequencerInboxBatch>, j: int, b: SequencerInboxBatch) {
    && 0 <= j < |batches| && batches[j] == b
    && forall k | 0 <= k < j :: batches[k].sequenceNumber != b.sequenceNumber
  }

  /**
   From batches sorted by number, the unbroken run that starts at `expected`: no number is missing from it or
   repeated, the first of several batches with one number is taken, and the run cannot be made longer.
   */
  method Contiguous(sorted: seq<SequencerInboxBatch>, expected: nat) returns (run: seq<SequencerInboxBatch>)
    requires SortedByNumber(sorted)
    ensures forall i | 0 <= i < |run| :: IsFirst(sorted, run[i]) && run[i].sequenceNumber == expected + i
    ensures forall b | b in sorted :: b.sequenceNumber != expected + |run|
  {
    run := [];
    for i := 0 to |sorted|
      invariant forall j | 0 <= j < |run| :: IsFirst(sorted, run[j]) && run[j].sequenceNumber == expected + j
      invariant forall j | 0 <= j < i :: sorted[j].sequenceNumber < expected + |run|
    {
      var b := sorted[i];
      if b.sequenceNumber == expected + |run| {
        assert FirstAt(sorted, i, b);
        run := run + [b];
      } else if b.sequenceNumber > expected + |run| {
        break;
      }
    }
  }
}
