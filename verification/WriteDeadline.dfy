/** Write deadlines on a shared connection (server/anytls/session.go, stream.go): a stream's deadline is on the
  * connection only while that stream writes. */
module WriteDeadline {
  import opened Options

  type StreamId = nat

  /** A point in time, 0 for none. */
  type Time = nat

  /** The session's fields: the stream whose write is under way, and the deadline that the connection has. */
  datatype Writing = Writing(active: Option<StreamId>, deadline: Time)

  class Session {
    var activeWrite: Option<StreamId>
    var connDeadline: Time

    ghost function View(): Writing
      reads this
    {
      Writing(activeWrite, connDeadline)
    }

    /** Without a stream that writes, the connection has no deadline. */
    ghost predicate Valid()
      reads this
    {
      activeWrite.None? ==> connDeadline == 0
    }

    constructor ()
      ensures Valid() && View() == Writing(None, 0)
    {
      activeWrite, connDeadline := None, 0;
    }

    method BeginStreamWrite(s: StreamId, deadline: Time)
      requires Valid()
      modifies this
      ensures Valid() && activeWrite == Some(s) && connDeadline == deadline
      ensures View() == Begun(s, deadline)
    {
      activeWrite := Some(s);
      connDeadline := deadline;
    }

    method EndStreamWrite(s: StreamId)
      requires Valid()
      modifies this
      ensures Valid() && activeWrite != Some(s)
      ensures if old(activeWrite) == Some(s) then activeWrite == None && connDeadline == 0 else View() == old(View())
      ensures View() == Ended(old(View()), s)
    {
      if activeWrite != Some(s) {
        return;
      }
      activeWrite := None;
      connDeadline := 0;
    }

    method UpdateActiveWriteDeadline(s: StreamId, deadline: Time)
      requires Valid()
      modifies this
      ensures Valid() && activeWrite == old(activeWrite)
      ensures connDeadline == if activeWrite == Some(s) then deadline else old(connDeadline)
      ensures View() == Updated(old(View()), s, deadline)
    {
      if activeWrite != Some(s) {
        return;
      }
      connDeadline := deadline;
    }
  }

  function Begun(s: StreamId, deadline: Time): Writing {
    Writing(Some(s), deadline)
  }

  function Ended(w: Writing, s: StreamId): Writing {
    if w.active != Some(s) then w else Writing(None, 0)
  }

  function Updated(w: Writing, s: StreamId, deadline: Time): Writing {
    if w.active != Some(s) then w else w.(deadline := deadline)
  }

  // ---- Any number of writers, control frames and deadline changes ----

  /** Who holds the write lock, and how far it is. A stream's writer reads its deadline, puts it on the connection,
    * writes, and takes it off. */
  datatype Holder = Nobody | Control | Locked(s: StreamId) | Read(s: StreamId, deadline: Time)
    | Active(s: StreamId) | Off(s: StreamId)

  /** deadlines are the streams' own; updates are the SetWriteDeadline calls that have stored theirs and have yet to
    * look at the connection; given is every deadline that a stream was ever given. */
  datatype State = State(
    w: Writing, holder: Holder, deadlines: map<StreamId, Time>,
    updates: multiset<(StreamId, Time)>, given: set<(StreamId, Time)>)
  {
    function Deadline(s: StreamId): Time {
      if s in deadlines then deadlines[s] else 0
    }
  }

  const INIT := State(Writing(None, 0), Nobody, map[], multiset{}, {})

  datatype Action =
    | LockControl | UnlockControl
    | Lock(s: StreamId)
    | Look                                    // the writer reads its stream's deadline
    | Expire                                  // and finds that it has passed
    | Begin | End | Unlock
    | SetDeadline(s: StreamId, t: Time)       // SetWriteDeadline stores the deadline
    | Update(s: StreamId, t: Time)            // and puts it on the connection if its stream is writing

  predicate Enabled(st: State, a: Action) {
    match a
    case LockControl | Lock(_) => st.holder.Nobody?
    case UnlockControl => st.holder.Control?
    case Look => st.holder.Locked?
    case Expire | Begin => st.holder.Read?
    case End => st.holder.Active?
    case Unlock => st.holder.Off?
    case SetDeadline(_, _) => true
    case Update(s, t) => (s, t) in st.updates
  }

  function Step(st: State, a: Action): State
    requires Enabled(st, a)
  {
    match a
    case LockControl => st.(holder := Control)
    case UnlockControl | Unlock | Expire => st.(holder := Nobody)
    case Lock(s) => st.(holder := Locked(s))
    case Look => st.(holder := Read(st.holder.s, st.Deadline(st.holder.s)))
    case Begin => st.(w := Begun(st.holder.s, st.holder.deadline), holder := Active(st.holder.s))
    case End => st.(w := Ended(st.w, st.holder.s), holder := Off(st.holder.s))
    case SetDeadline(s, t) =>
      st.(deadlines := st.deadlines[s := t], updates := st.updates + multiset{(s, t)}, given := st.given + {(s, t)})
    case Update(s, t) => st.(w := Updated(st.w, s, t), updates := st.updates - multiset{(s, t)})
  }

  function Run(acts: seq<Action>): Option<State> {
    if acts == [] then Some(INIT) else
      var st := Run(acts[..|acts| - 1]);
      if st.Some? && Enabled(st.value, acts[|acts| - 1]) then Some(Step(st.value, acts[|acts| - 1])) else None
  }

  /** t is no deadline, or one that s was given. */
  predicate Own(st: State, s: StreamId, t: Time) {
    t == 0 || (s, t) in st.given
  }

  ghost predicate Inv(st: State) {
    && (match st.w.active
        case None => !st.holder.Active? && st.w.deadline == 0
        case Some(s) => st.holder == Active(s) && Own(st, s, st.w.deadline))
    && (st.holder.Read? ==> Own(st, st.holder.s, st.holder.deadline))
    && (forall s :: Own(st, s, st.Deadline(s)))
    && (forall u :: u in st.updates ==> u in st.given)
  }

  lemma StepInv(st: State, a: Action)
    requires Inv(st) && Enabled(st, a)
    ensures Inv(Step(st, a))
  {
    var st' := Step(st, a);
    forall s ensures Own(st', s, st'.Deadline(s)) {
      assert Own(st, s, st.Deadline(s));
    }
  }

  lemma {:induction false} RunInv(acts: seq<Action>)
    requires Run(acts).Some?
    ensures Inv(Run(acts).value)
  {
    if acts != [] {
      RunInv(acts[..|acts| - 1]);
      StepInv(Run(acts[..|acts| - 1]).value, acts[|acts| - 1]);
    }
  }

  /** The connection has a deadline only while a stream writes under the lock, and then it is one that this stream was
    * given. No other stream's frame and no control frame is ever written under it. */
  lemma DeadlineIsolated(acts: seq<Action>)
    requires Run(acts).Some?
    ensures var st := Run(acts).value;
            && (st.w.active == None ==> st.w.deadline == 0)
            && (st.w.active.Some? ==>
                st.holder == Active(st.w.active.value) && Own(st, st.w.active.value, st.w.deadline))
            && (st.holder.Control? || st.holder.Nobody? ==> st.w == Writing(None, 0))
  {
    RunInv(acts);
  }

  /** A write that nothing interferes with is under its own stream's deadline, and leaves the connection without one. */
  lemma PlainWrite(st: State, s: StreamId)
    requires Inv(st) && st.holder.Nobody?
    ensures var locked := Step(st, Lock(s));
            var ready := Step(locked, Look);
            && Enabled(ready, Begin) && Enabled(ready, Expire)
            && var writing := Step(ready, Begin);
               && writing.w == Writing(Some(s), st.Deadline(s)) && Enabled(writing, End)
               && Step(Step(writing, End), Unlock) == st && Step(ready, Expire) == st
  {
  }

  /** A change of deadline while its stream writes is in force after its two steps, if it is the last one. */
  lemma PlainUpdate(st: State, s: StreamId, t: Time)
    requires Inv(st)
    ensures var st1 := Step(st, SetDeadline(s, t));
            && Enabled(st1, Update(s, t)) && st1.Deadline(s) == t
            && (forall o :: o != s ==> st1.Deadline(o) == st.Deadline(o))
            && var st2 := Step(st1, Update(s, t));
               && st2.w == (if st.holder == Active(s) then Writing(Some(s), t) else st.w)
               && st2.updates == st.updates && st2.holder == st.holder
  {
  }

  // ---- When the connection has the stream's latest deadline ----

  ghost predicate Pending(updates: multiset<(StreamId, Time)>, s: StreamId) {
    exists t :: (s, t) in updates
  }

  /** The deadline in force is the stream's own, or a call that changes it has yet to look at the connection. */
  ghost predicate Current(st: State) {
    st.holder.Active? ==> st.w.deadline == st.Deadline(st.holder.s) || Pending(st.updates, st.holder.s)
  }

  /** A Begin of a deadline that is still the stream's own, or of one that a pending update will replace; an update
    * for the writing stream that brings its latest deadline, or is not the last. */
  ghost predicate Timely(st: State, a: Action)
    requires Enabled(st, a)
  {
    && (a.Begin? ==> st.holder.deadline == st.Deadline(st.holder.s) || Pending(st.updates, st.holder.s))
    && (a.Update? && st.holder == Active(a.s) ==>
          a.t == st.Deadline(a.s) || Pending(st.updates - multiset{(a.s, a.t)}, a.s))
  }

  /** Every step keeps the deadline in force current, with two exceptions: Begin after a change that has run to its
    * end since the writer looked, and the last of several pending updates when it is not for the latest deadline. */
  lemma CurrentKept(st: State, a: Action)
    requires Inv(st) && Enabled(st, a) && Current(st)
    ensures Current(Step(st, a)) <==> Timely(st, a)
  {
    if a.Update? && st.holder.Active? && st.holder.s != a.s {
      var s := st.holder.s;
      if t :| (s, t) in st.updates {
        assert (s, t) in st.updates - multiset{(a.s, a.t)};
      }
    } else if a.SetDeadline? && st.holder == Active(a.s) {
      assert (a.s, a.t) in st.updates + multiset{(a.s, a.t)};
    } else if a.SetDeadline? && st.holder.Active? {
      var s := st.holder.s;
      if t :| (s, t) in st.updates {
        assert (s, t) in st.updates + multiset{(a.s, a.t)};
      }
    }
  }

  /** The deadline in force is current in every state of the run. */
  ghost predicate AlwaysCurrent(acts: seq<Action>)
    requires Run(acts).Some?
  {
    Current(Run(acts).value) && (acts != [] ==> AlwaysCurrent(acts[..|acts| - 1]))
  }

  /** Every step of the run is timely. */
  ghost predicate AlwaysTimely(acts: seq<Action>)
    requires Run(acts).Some?
  {
    acts != [] ==>
      Timely(Run(acts[..|acts| - 1]).value, acts[|acts| - 1]) && AlwaysTimely(acts[..|acts| - 1])
  }

  /** The deadline in force is current in every state of a run exactly when each Begin and each update was timely. */
  lemma {:induction false} RunCurrent(acts: seq<Action>)
    requires Run(acts).Some?
    ensures AlwaysCurrent(acts) <==> AlwaysTimely(acts)
  {
    if acts != [] {
      var front := acts[..|acts| - 1];
      RunCurrent(front);
      if AlwaysCurrent(front) {
        RunInv(front);
        CurrentKept(Run(front).value, acts[|acts| - 1]);
      }
    }
  }

  /** A deadline set between a writer's look at its deadline and its write is not in force during that write. */
  lemma StaleDeadline(s: StreamId, t: Time)
    requires t != 0
    ensures var acts := [Lock(s), Look, SetDeadline(s, t), Update(s, t), Begin];
            Run(acts).Some? && Run(acts).value.w == Writing(Some(s), 0) && Run(acts).value.Deadline(s) == t
            && Run(acts).value.updates == multiset{}
  {
    var acts := [Lock(s), Look, SetDeadline(s, t), Update(s, t), Begin];
    assert acts[..4] == [Lock(s), Look, SetDeadline(s, t), Update(s, t)];
    assert acts[..4][..3] == [Lock(s), Look, SetDeadline(s, t)];
    assert acts[..4][..3][..2] == [Lock(s), Look];
    assert acts[..4][..3][..2][..1] == [Lock(s)];
    assert acts[..4][..3][..2][..1][..0] == [];
    var st1 := Step(INIT, Lock(s));
    assert Run([Lock(s)]) == Some(st1);
    var st2 := Step(st1, Look);
    assert Run([Lock(s), Look]) == Some(st2);
    var st3 := Step(st2, SetDeadline(s, t));
    assert Run([Lock(s), Look, SetDeadline(s, t)]) == Some(st3);
    var st4 := Step(st3, Update(s, t));
    assert Run([Lock(s), Look, SetDeadline(s, t), Update(s, t)]) == Some(st4);
  }
}
