/** What updates and client steps bring about in every run. */
module MvccEffects {
  import opened Mvcc
  import opened MvccInvariant
  import opened MvccTheorems

  lemma NextStep(s0: State, steps: seq<Step>, step: Step)
    requires IsRun(s0, steps) && Enabled(After(s0, steps), step)
    ensures IsRun(s0, steps + [step]) && After(s0, steps + [step]) == Apply(After(s0, steps), step)
  {
    assert (steps + [step])[..|steps|] == steps;
  }

  /** One more update changes the replay by that update. */
  lemma ReplayOneMore(start: map<Name, Id>, hist: seq<Update>, u: Update)
    ensures Replay(start, hist + [u]) == ApplyUpdate(Replay(start, hist), u)
  {
    assert (hist + [u])[..|hist|] == hist;
  }

  /** A created filter is found at once under its name, as a new one, and no other name is affected. */
  lemma CreateShows(s0: State, steps: seq<Step>, c: Id, n: Name)
    requires IsRun(s0, steps) && ClientEnabled(After(s0, steps), c, CreateFilter(n))
    ensures IsRun(s0, steps + [Do(c, CreateFilter(n))])
    ensures var s, s' := After(s0, steps), After(s0, steps + [Do(c, CreateFilter(n))]);
            && Take(s, n) == Missing && Take(s', n) == Found(|s.wrappers|) && |s'.hist| == |s.hist| + 1
            && forall m :: m != n ==> Take(s', m) == Take(s, m)
  {
    var s, step := After(s0, steps), Do(c, CreateFilter(n));
    NextStep(s0, steps, step);
    var s' := After(s0, steps + [step]);
    ReplayOneMore(s.loaded, s.hist, Create(|s.wrappers|, n));
    InvKeepsLookups(s', n);
    forall m | m != n
      ensures Take(s', m) == Take(s, m)
    {
      InvKeepsLookups(s, m);
      InvKeepsLookups(s', m);
    }
  }

  /** A removed filter is no longer found under its name, its wrapper says whether its files go, and no
      other name is affected. */
  lemma RemoveHides(s0: State, steps: seq<Step>, c: Id, n: Name, deleteFiles: bool)
    requires IsRun(s0, steps) && ClientEnabled(After(s0, steps), c, RemoveFilter(n, deleteFiles))
    ensures IsRun(s0, steps + [Do(c, RemoveFilter(n, deleteFiles))])
    ensures var s, s' := After(s0, steps), After(s0, steps + [Do(c, RemoveFilter(n, deleteFiles))]);
            && Take(s', n) == Missing && |s'.hist| == |s.hist| + 1
            && Take(s, n).filter < |s'.wrappers| && s'.wrappers[Take(s, n).filter].shouldDelete == deleteFiles
            && forall m :: m != n ==> Take(s', m) == Take(s, m)
  {
    var s, step := After(s0, steps), Do(c, RemoveFilter(n, deleteFiles));
    NextStep(s0, steps, step);
    var s' := After(s0, steps + [step]);
    ReplayOneMore(s.loaded, s.hist, Delete(Take(s, n).filter, n));
    InvKeepsLookups(s', n);
    forall m | m != n
      ensures Take(s', m) == Take(s, m)
    {
      InvKeepsLookups(s, m);
      InvKeepsLookups(s', m);
    }
  }

  /** `steps` is a run that leads to `s`. */
  ghost predicate LeadsTo(s0: State, steps: seq<Step>, s: State) {
    IsRun(s0, steps) && After(s0, steps) == s && Inv(s)
  }

  lemma GoOn(s0: State, steps: seq<Step>, s: State, step: Step, s': State)
    requires LeadsTo(s0, steps, s) && Enabled(s, step) && Apply(s, step) == s'
    ensures LeadsTo(s0, steps + [step], s')
  {
    NextStep(s0, steps, step);
  }

  /** The state with another entry for `c`. */
  function Entered(s: State, c: Id, cl: Client): State {
    s.(clients := s.clients[c := cl])
  }

  lemma EnteredTwice(s: State, c: Id, cl: Client, cl': Client)
    ensures Entered(Entered(s, c, cl), c, cl') == Entered(s, c, cl')
  {
    assert s.clients[c := cl][c := cl'] == s.clients[c := cl'];
  }

  lemma JoinEffect(s: State, c: Id)
    requires Inv(s) && c !in s.clients
    ensures ClientEnabled(s, c, Join) && ApplyClient(s, c, Join) == Entered(s, c, Client(|s.hist|, Quiet))
  {
  }

  lemma BeginEffect(s: State, c: Id)
    requires Inv(s) && c in s.clients && s.clients[c].activity.Quiet?
    ensures ClientEnabled(s, c, Begin)
    ensures ApplyClient(s, c, Begin) == Entered(s, c, Client(s.clients[c].vsn, Busy({}, 0, {})))
  {
  }

  /** Whatever a thread has done so far, by its own steps it can come to be inside an operation, with
      the trees, the list and all other clients as they are. */
  lemma AnyoneCanBegin(s0: State, steps: seq<Step>, s: State, c: Id) returns (more: seq<Step>, cl: Client)
    requires LeadsTo(s0, steps, s)
    ensures |more| <= 2 && LeadsTo(s0, steps + more, Entered(s, c, cl)) && cl.activity.Busy?
    ensures c !in s.clients ==> cl.vsn == |s.hist|
  {
    if c in s.clients && s.clients[c].activity.Busy? {
      more, cl := [], s.clients[c];
      assert steps + more == steps && Entered(s, c, cl) == s;
    } else if c in s.clients {
      more, cl := [Do(c, Begin)], Client(s.clients[c].vsn, Busy({}, 0, {}));
      BeginEffect(s, c);
      GoOn(s0, steps, s, Do(c, Begin), Entered(s, c, cl));
    } else {
      more, cl := [Do(c, Join), Do(c, Begin)], Client(|s.hist|, Busy({}, 0, {}));
      NewcomerBegins(s0, steps, s, c, cl);
    }
  }

  lemma NewcomerBegins(s0: State, steps: seq<Step>, s: State, c: Id, cl: Client)
    requires LeadsTo(s0, steps, s) && c !in s.clients && cl == Client(|s.hist|, Busy({}, 0, {}))
    ensures LeadsTo(s0, steps + [Do(c, Join), Do(c, Begin)], Entered(s, c, cl))
  {
    var s' := Entered(s, c, Client(|s.hist|, Quiet));
    JoinEffect(s, c);
    GoOn(s0, steps, s, Do(c, Join), s');
    BeginEffect(s', c);
    EnteredTwice(s, c, Client(|s.hist|, Quiet), cl);
    GoOn(s0, steps + [Do(c, Join)], s', Do(c, Begin), Entered(s, c, cl));
    assert steps + [Do(c, Join)] + [Do(c, Begin)] == steps + [Do(c, Join), Do(c, Begin)];
  }

  lemma EndEffect(s: State, c: Id)
    requires Inv(s) && Reading(s, c)
    ensures ClientEnabled(s, c, End)
    ensures ApplyClient(s, c, End) == Entered(s, c, Client(s.clients[c].vsn, Quiet))
  {
  }

  lemma CheckpointEffect(s: State, c: Id)
    requires Inv(s) && c in s.clients && s.clients[c].activity.Quiet?
    ensures ClientEnabled(s, c, Checkpoint)
    ensures ApplyClient(s, c, Checkpoint) == Entered(s, c, Client(|s.hist|, Quiet))
  {
  }

  /** A client inside an operation can always end it and report the current version. */
  lemma AnyoneCanReport(s0: State, steps: seq<Step>, s: State, c: Id)
    requires LeadsTo(s0, steps, s) && Reading(s, c)
    ensures LeadsTo(s0, steps + [Do(c, End)] + [Do(c, Checkpoint)], Entered(s, c, Client(|s.hist|, Quiet)))
  {
    var quiet := Client(s.clients[c].vsn, Quiet);
    var s' := Entered(s, c, quiet);
    EndEffect(s, c);
    GoOn(s0, steps, s, Do(c, End), s');
    CheckpointEffect(s', c);
    EnteredTwice(s, c, quiet, Client(|s.hist|, Quiet));
    GoOn(s0, steps + [Do(c, End)], s', Do(c, Checkpoint), Entered(s, c, Client(|s.hist|, Quiet)));
  }
}
