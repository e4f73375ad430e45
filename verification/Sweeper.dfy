/** The clock sweeper: every pass finishes the games whose deadline has passed, a bounded
    number at a time. */
module Sweeper {
  import opened Wrappers
  import Clock
  import Engine
  import opened Batches
  import opened Games
  import opened GameRuns

  const SWEEP_LIMIT := 100

  /** The games the sweeper's query selects, by clock anchor. */
  function Expired(games: map<string, World>, now: int): map<string, int> {
    map u | u in games && games[u].game.active && Clock.PastDeadline(games[u].game.timeControl, games[u].game.clockAnchor, now) ::
      games[u].game.clockAnchor.value
  }

  /** One pass over the selected games. */
  function Swept<G>(lib: Engine.Library<G>, games: map<string, World>, batch: seq<string>, now: int): map<string, World> {
    map u | u in games :: if u in batch then Step(lib, games[u], Sweep(now)).0 else games[u]
  }

  class Sweeper<G> {
    const lib: Engine.Library<G>
    var games: map<string, World>

    constructor (lib: Engine.Library<G>, games: map<string, World>)
      ensures this.lib == lib && this.games == games
    {
      this.lib, this.games := lib, games;
    }

    /** `expired` is the query's answer; a game that cannot be loaded is passed over. */
    method SweepOnce(expired: seq<string>, now: int) returns (finished: nat)
      requires IsBatch(Expired(games, now), SWEEP_LIMIT, expired)
      modifies this`games
      ensures games == Swept(lib, old(games), expired, now)
      ensures (forall u :: u in old(games) ==> Inv(lib, old(games)[u])) ==> finished == |expired|
    {
      finished := 0;
      var i := 0;
      while i < |expired|
        invariant 0 <= i <= |expired|
        invariant games == Swept(lib, old(games), expired[..i], now)
        invariant (forall u :: u in old(games) ==> Inv(lib, old(games)[u])) ==> finished == i
      {
        var u := expired[i];
        assert u in Expired(old(games), now);
        var (w, resp) := Step(lib, games[u], Sweep(now));
        SweptOneMore(lib, old(games), expired, i, now);
        games := games[u := w];
        if resp.Finished? { finished := finished + 1; }
        if forall u :: u in old(games) ==> Inv(lib, old(games)[u]) {
          SweepFinishes(lib, old(games)[u], now);
        }
        i := i + 1;
      }
      assert expired[..|expired|] == expired;
    }
  }

  lemma SweptOneMore<G>(lib: Engine.Library<G>, games: map<string, World>, batch: seq<string>, i: nat, now: int)
    requires i < |batch| && batch[i] in games
    requires forall k :: 0 <= k < i ==> batch[k] != batch[i]
    ensures batch[i] in Swept(lib, games, batch[..i], now)
    ensures Swept(lib, games, batch[..i], now)[batch[i]] == games[batch[i]]
    ensures Swept(lib, games, batch[..i + 1], now) ==
            Swept(lib, games, batch[..i], now)[batch[i] := Step(lib, games[batch[i]], Sweep(now)).0]
  {
  }

  lemma SweepOfLoadable<G>(lib: Engine.Library<G>, w: World, now: int)
    requires w.game.active && Load(lib, w).Ok? && Clock.PastDeadline(w.game.timeControl, w.game.clockAnchor, now)
    ensures Step(lib, w, Sweep(now)) == (w.(game := Finish(w.game, TimeoutOutcome(w.game), now)), Finished(TimeoutOutcome(w.game)))
  {
  }

  /** The sweeper never passes over a game a run produced: it loads, and finishes by timeout
      in favour of the player not on the move, with nothing left on the clock. */
  lemma SweepFinishes<G>(lib: Engine.Library<G>, w: World, now: int)
    requires Inv(lib, w) && w.game.active && Clock.PastDeadline(w.game.timeControl, w.game.clockAnchor, now)
    ensures Step(lib, w, Sweep(now)) == (w.(game := Finish(w.game, TimeoutOutcome(w.game), now)), Finished(TimeoutOutcome(w.game)))
    ensures Clock.RemainingMs(w.game.timeControl, w.game.clockAnchor, now) == Ok(0)
    ensures w.game.turnDid != Some(TimeoutOutcome(w.game).winner)
  {
    LoadIsReplay(lib, w);
    SweepOfLoadable(lib, w, now);
    TimeoutIsSound(lib, w);
    Clock.PastDeadlineHasNothingLeft(w.game.timeControl, w.game.clockAnchor, now);
  }

  lemma SweepDeactivates<G>(lib: Engine.Library<G>, w: World, now: int)
    requires Inv(lib, w) && w.game.active && Clock.PastDeadline(w.game.timeControl, w.game.clockAnchor, now)
    ensures !Step(lib, w, Sweep(now)).0.game.active
  {
    SweepFinishes(lib, w, now);
  }

  lemma SweptLeaves<G>(lib: Engine.Library<G>, games: map<string, World>, batch: seq<string>, now: int)
    requires forall u :: u in games ==> Inv(lib, games[u])
    requires IsBatch(Expired(games, now), SWEEP_LIMIT, batch)
    ensures Expired(Swept(lib, games, batch, now), now).Keys == Expired(games, now).Keys - Elements(batch)
  {
    var next := Swept(lib, games, batch, now);
    forall u | u in games ensures u in Expired(next, now) <==> u in Expired(games, now) && u !in batch {
      if u in batch {
        assert u in Expired(games, now);
        SweepDeactivates(lib, games[u], now);
        assert !next[u].game.active;
      } else {
        assert next[u] == games[u];
      }
    }
  }

  /** The rows after several passes at one instant, each given its query's answer. */
  function SweptBy<G>(lib: Engine.Library<G>, games: map<string, World>, batches: seq<seq<string>>, now: int): map<string, World> {
    if batches == [] then games else SweptBy(lib, Swept(lib, games, batches[0], now), batches[1..], now)
  }

  ghost predicate Answers<G>(lib: Engine.Library<G>, games: map<string, World>, batches: seq<seq<string>>, now: int) {
    batches == [] ||
    (IsBatch(Expired(games, now), SWEEP_LIMIT, batches[0]) && Answers(lib, Swept(lib, games, batches[0], now), batches[1..], now))
  }

  lemma {:induction false} SweepsShrink<G(!new)>(lib: Engine.Library<G>, games: map<string, World>, batches: seq<seq<string>>, now: int)
    requires Engine.Lawful(lib) && (forall u :: u in games ==> Inv(lib, games[u]))
    requires Answers(lib, games, batches, now)
    ensures |Expired(SweptBy(lib, games, batches, now), now)| == Minus(|Expired(games, now)|, |batches| * SWEEP_LIMIT)
    decreases |batches|
  {
    if batches != [] {
      var next := Swept(lib, games, batches[0], now);
      forall u | u in next ensures Inv(lib, next[u]) {
        if u in batches[0] { StepKeepsInv(lib, games[u], Sweep(now)); }
      }
      SweptLeaves(lib, games, batches[0], now);
      BatchShrinks(Expired(games, now), SWEEP_LIMIT, batches[0]);
      SweepsShrink(lib, next, batches[1..], now);
      assert |batches| * SWEEP_LIMIT == (|batches| - 1) * SWEEP_LIMIT + SWEEP_LIMIT;
    }
  }

  /** The games whose deadline, counted without wrapping, has passed. */
  predicate Overdue(w: World, now: int) {
    && w.game.active && w.game.timeControl.kind == Clock.PerMove
    && w.game.clockAnchor != None && w.game.clockAnchor.value + w.game.timeControl.perMoveSeconds * 1_000_000_000 <= now
  }

  lemma ExpiredIsOverdue(games: map<string, World>, now: int, u: string)
    ensures u in Expired(games, now) <==> u in games && Overdue(games[u], now)
  {
  }

  /** A pass takes a hundred at most, those that have been overdue longest first. */
  lemma SweepIsBounded(games: map<string, World>, now: int, batch: seq<string>)
    requires IsBatch(Expired(games, now), SWEEP_LIMIT, batch)
    ensures |batch| <= 100 && forall u :: u in batch ==> u in games && Overdue(games[u], now)
    ensures forall u, v :: u in batch && v in games && Overdue(games[v], now) && v !in batch ==>
              |batch| == 100 && games[u].game.clockAnchor.value <= games[v].game.clockAnchor.value
  {
    forall u | u in batch ensures u in games && Overdue(games[u], now) { ExpiredIsOverdue(games, now, u); }
    forall u, v | u in batch && v in games && Overdue(games[v], now) && v !in batch
      ensures |batch| == 100 && games[u].game.clockAnchor.value <= games[v].game.clockAnchor.value
    {
      ExpiredIsOverdue(games, now, v);
      assert v in Expired(games, now) && u in Expired(games, now);
    }
  }

  /** Passes that could take all the expired games leave none overdue. */
  lemma SweepsDrain<G(!new)>(lib: Engine.Library<G>, games: map<string, World>, batches: seq<seq<string>>, now: int)
    requires Engine.Lawful(lib) && (forall u :: u in games ==> Inv(lib, games[u]))
    requires Answers(lib, games, batches, now) && |batches| * 100 >= |Expired(games, now)|
    ensures |Expired(SweptBy(lib, games, batches, now), now)| == 0
    ensures forall u :: u in SweptBy(lib, games, batches, now) ==> !Overdue(SweptBy(lib, games, batches, now)[u], now)
  {
    SweepsShrink(lib, games, batches, now);
    var r := SweptBy(lib, games, batches, now);
    assert Expired(r, now) == map[];
    forall u | u in r ensures !Overdue(r[u], now) { ExpiredIsOverdue(r, now, u); }
  }
}
