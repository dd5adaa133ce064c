/**
  The processes of a gateway backend host: a doubly linked list of those in use and
  one of those set aside, and a counter of the running ones. What happens in the
  world (exits, failed starts, the clock) is given from outside.
 */
module Gateway {
  datatype State = Running | Overloaded | DiedWaitForPid | Died | Killed

  class Proc {
    var prev: Proc?
    var next: Proc?
    var state: State
    var pid: int
    var isLocal: bool
    var load: int
    var disabledUntil: int
    var lastUsed: int
    const id: int

    /** gw_proc_init */
    constructor (id: int)
      ensures prev == null && next == null && state == Died && pid == 0 && load == 0 && this.id == id
    {
      prev, next, state, pid, isLocal, load, disabledUntil, lastUsed := null, null, Died, 0, false, 0, 0, 0;
      this.id := id;
    }
  }

  // ------------------------------------------------------------------- lists

  ghost function At(s: seq<Proc>, i: int): Proc? { if 0 <= i < |s| then s[i] else null }

  ghost predicate Ordered(s: seq<Proc>, own: set<Proc>) {
    && (forall i :: 0 <= i < |s| ==> s[i] in own)
    && (forall i, j :: 0 <= i < j < |s| ==> s[i] != s[j])
  }

  /** `s` is the list from `head`, linked both ways, with every node in `own` and none twice. */
  ghost predicate Linked(s: seq<Proc>, head: Proc?, own: set<Proc>)
    reads own`next, own`prev
  {
    && Ordered(s, own)
    && head == At(s, 0)
    && (forall i :: 0 <= i < |s| ==> s[i].next == At(s, i + 1) && s[i].prev == At(s, i - 1))
  }

  ghost function States(s: seq<Proc>, own: set<Proc>): (r: seq<State>)
    requires forall i :: 0 <= i < |s| ==> s[i] in own
    reads own`state
    ensures |r| == |s| && forall i :: 0 <= i < |s| ==> r[i] == s[i].state
  {
    if s == [] then [] else States(s[..|s| - 1], own) + [s[|s| - 1].state]
  }

  ghost function One(s: State): nat { if s == Running then 1 else 0 }

  /** The number of running processes. */
  ghost function Count(states: seq<State>): nat {
    if states == [] then 0 else One(states[0]) + Count(states[1..])
  }

  lemma {:induction false} CountUpdate(states: seq<State>, k: nat, x: State)
    requires k < |states|
    ensures Count(states[k := x]) == Count(states) - One(states[k]) + One(x)
  {
    if k == 0 {
      assert states[0 := x][1..] == states[1..];
    } else {
      CountUpdate(states[1..], k - 1, x);
      assert states[k := x][1..] == states[1..][k - 1 := x];
    }
  }

  lemma {:induction false} CountRemove(states: seq<State>, k: nat)
    requires k < |states|
    ensures Count(states) == Count(states[..k] + states[k + 1..]) + One(states[k])
  {
    if k == 0 {
      assert states[..0] + states[1..] == states[1..];
    } else {
      CountRemove(states[1..], k - 1);
      var r := states[..k] + states[k + 1..];
      assert r[1..] == states[1..][..k - 1] + states[1..][k..];
    }
  }

  lemma CountFront(x: State, states: seq<State>)
    ensures Count([x] + states) == One(x) + Count(states)
  {
    assert ([x] + states)[1..] == states;
  }

  lemma {:induction false} CountZero(states: seq<State>)
    ensures Count(states) == 0 <==> forall i :: 0 <= i < |states| ==> states[i] != Running
  {
    if states != [] {
      CountZero(states[1..]);
      assert forall i :: 0 < i < |states| ==> states[i] == states[1..][i - 1];
    }
  }

  ghost predicate NoneRunning(states: seq<State>) {
    forall i :: 0 <= i < |states| ==> states[i] != Running
  }

  function Without(s: seq<Proc>, k: nat): seq<Proc>
    requires k < |s|
  {
    s[..k] + s[k + 1..]
  }

  lemma WithoutAt(s: seq<Proc>, k: nat, i: int)
    requires k < |s|
    ensures At(Without(s, k), i) == At(s, if i < k then i else i + 1)
  {
  }

  lemma OrderedWithout(s: seq<Proc>, k: nat, own: set<Proc>)
    requires Ordered(s, own) && k < |s|
    ensures Ordered(Without(s, k), own - {s[k]})
  {
  }

  lemma LinkedAt(s: seq<Proc>, head: Proc?, own: set<Proc>, k: nat)
    requires Linked(s, head, own) && k < |s|
    ensures s[k] in own && s[k].next == At(s, k + 1) && s[k].prev == At(s, k - 1) && head == At(s, 0)
    ensures s[k] == head <==> s[k].prev == null
  {
  }

  /** The neighbours of node k point past it; all other links are those of the list. */
  ghost predicate Bridged(s: seq<Proc>, own: set<Proc>, k: nat)
    requires k < |s|
    reads own`next, own`prev
  {
    && Ordered(s, own)
    && (forall i :: 0 <= i < |s| && i != k ==> s[i].next == At(s, if i == k - 1 then k + 1 else i + 1))
    && (forall i :: 0 <= i < |s| && i != k ==> s[i].prev == At(s, if i == k + 1 then k - 1 else i - 1))
  }

  method Bridge(p: Proc, ghost s: seq<Proc>, ghost head: Proc?, ghost own: set<Proc>, ghost k: nat)
    requires Linked(s, head, own) && k < |s| && s[k] == p
    modifies own`next, own`prev
    ensures Bridged(s, own, k) && p.prev == null
  {
    if p.next != null { p.next.prev := p.prev; }
    if p.prev != null { p.prev.next := p.next; }
    p.prev := null;
  }

  method ClearNext(p: Proc, ghost s: seq<Proc>, ghost own: set<Proc>, ghost k: nat)
    requires k < |s| && s[k] == p && Bridged(s, own, k)
    modifies p`next
    ensures Bridged(s, own, k) && p.next == null
  {
    p.next := null;
  }

  lemma BridgedKept(s: seq<Proc>, own: set<Proc>, k: nat, head: Proc?)
    requires k < |s| && Bridged(s, own, k) && head == At(s, 0)
    ensures Linked(Without(s, k), if k == 0 then At(s, 1) else head, own - {s[k]})
  {
    hide At, Without, Ordered;
    OrderedWithout(s, k, own);
    var t, own' := Without(s, k), own - {s[k]};
    WithoutAt(s, k, 0);
    forall i | 0 <= i < |t| ensures t[i] in own' && t[i].next == At(t, i + 1) && t[i].prev == At(t, i - 1) {
      WithoutAt(s, k, i + 1);
      WithoutAt(s, k, i - 1);
      WithoutIndex(s, k, i, own);
    }
  }

  lemma WithoutIndex(s: seq<Proc>, k: nat, i: nat, own: set<Proc>)
    requires k < |s| && i < |Without(s, k)| && Ordered(s, own)
    ensures |Without(s, k)| == |s| - 1 && Without(s, k)[i] == s[if i < k then i else i + 1]
    ensures Without(s, k)[i] in own - {s[k]}
  {
  }

  /** A process is linked in front of a list. */
  method PushFront(p: Proc, head: Proc?, ghost s: seq<Proc>, ghost own: set<Proc>)
    requires Linked(s, head, own) && p !in own && p.prev == null
    modifies own`prev, p`next
    ensures Linked([p] + s, p, own + {p})
  {
    p.next := head;
    if head != null { head.prev := p; }
    ghost var t := [p] + s;
    assert t[0] == p && forall i :: 0 < i < |t| ==> t[i] == s[i - 1];
    assert forall i {:trigger At(t, i)} :: i > 0 ==> At(t, i) == At(s, i - 1);
  }

  /** Place k is the first whose process has exited; none if k is negative. */
  ghost predicate FirstFree(s: seq<Proc>, own: set<Proc>, k: int)
    reads own`pid
  {
    && (forall j :: 0 <= j < |s| && (k < 0 || j < k) ==> s[j] in own && s[j].pid > 0)
    && (k >= 0 ==> k < |s| && s[k] in own && s[k].pid <= 0)
  }

  /** A process that has had nothing to do for long enough. */
  ghost predicate Tired(p: Proc, idleSince: int)
    reads p
  {
    p.load == 0 && p.pid > 0 && p.lastUsed < idleSince
  }

  // -------------------------------------------------------------------- host

  /** How an attempt to start a process ends. */
  datatype Start =
    | NoSocket                 // before anything changed
    | NoFork                   // the program could not be started
    | Exited                   // it was started and has exited at once
    | InUse                    // something listens on the socket already
    | Started(pid: int)

  /**
    What becomes of a process in use that is looked after. One that is found to have
    exited only now is not restarted yet.
   */
  function Revived(state: State, gone: bool, hasBin: bool, load: int, disabledUntil: int, start: Start, now: int): State {
    match state
    case Running => Running
    case Killed => Killed
    case Overloaded => if now > disabledUntil then Running else Overloaded
    case DiedWaitForPid => if gone then Died else DiedWaitForPid
    case Died =>
      if hasBin && load == 0 && disabledUntil < now && (start.InUse? || start.Started?) then Running else Died
  }

  /** The same after a look for exits: what has just exited is not started again in the same second. */
  function LookedAfter(state: State, gone: bool, hasBin: bool, load: int, disabledUntil: int, start: Start, now: int): State {
    if gone then Revived(Died, false, hasBin, load, if state == Killed then disabledUntil else now, start, now)
    else Revived(state, false, hasBin, load, disabledUntil, start, now)
  }

  class Host {
    var first: Proc?
    var unused: Proc?
    var active: nat
    var numProcs: int
    var maxId: int
    ghost var procs: seq<Proc>
    ghost var idle: seq<Proc>
    ghost var mine: set<Proc>
    ghost var spare: set<Proc>

    /** Both lists are well linked and share no process. */
    ghost predicate Shaped()
      reads this`first, this`unused, this`procs, this`idle, this`mine, this`spare, mine`next, mine`prev, spare`next, spare`prev
    {
      Linked(procs, first, mine) && Linked(idle, unused, spare) && mine !! spare
    }

    /** The counter counts the running processes in use, and no process set aside is running. */
    ghost predicate Valid()
      reads this`first, this`unused, this`active, this`procs, this`idle, this`mine, this`spare
      reads mine`next, mine`prev, mine`state, spare`next, spare`prev, spare`state
    {
      Shaped() && active == Count(States(procs, mine)) && NoneRunning(States(idle, spare))
    }

    constructor ()
      ensures Valid() && procs == [] && idle == [] && mine == spare == {}
    {
      first, unused, active, numProcs, maxId := null, null, 0, 0, 0;
      procs, idle, mine, spare := [], [], {}, {};
    }

    /** proc_set_state, for any process: the counter follows. */
    method SetState(p: Proc, state: State)
      requires p.state == Running ==> active > 0
      modifies this`active, p`state
      ensures p.state == state && active == old(active) - One(old(p.state)) + One(state)
    {
      if p.state == state { return; }
      if p.state == Running {
        active := active - 1;
      } else if state == Running {
        active := active + 1;
      }
      p.state := state;
    }

    lemma Members()
      requires Shaped()
      ensures mine !! spare
      ensures (forall i :: 0 <= i < |procs| ==> procs[i] in mine) && (forall i :: 0 <= i < |idle| ==> idle[i] in spare)
      ensures forall i, j :: 0 <= i < j < |procs| ==> procs[i] != procs[j]
      ensures forall i, j :: 0 <= i < j < |idle| ==> idle[i] != idle[j]
    {
    }

    /** A listed process changes its state; one that is set aside never to running. */
    method Mark(p: Proc, state: State)
      requires Valid() && (p in procs || (p in idle && state != Running))
      modifies this`active, p`state
      ensures Valid() && p.state == state
    {
      hide Count, States, Linked, Ordered;
      Members();
      if p in procs {
        ghost var k :| 0 <= k < |procs| && procs[k] == p;
        CountZero(States(procs, mine));
        CountUpdate(States(procs, mine), k, state);
        assert States(procs, mine)[k] == p.state;
      } else {
        ghost var k :| 0 <= k < |idle| && idle[k] == p;
        assert States(idle, spare)[k] == p.state;
      }
      SetState(p, state);
      assert p in old(procs) ==> States(idle, spare) == old(States(idle, spare));
      assert p in old(idle) ==> States(procs, mine) == old(States(procs, mine));
      if p in procs {
        ghost var k :| 0 <= k < |procs| && procs[k] == p;
        assert States(procs, mine) == old(States(procs, mine))[k := state];
      }
    }

    /** proc_connect_error */
    method ConnectError(p: Proc, pid: int, now: int, disableTime: int)
      requires Valid() && (p in procs || p in idle)
      modifies this`active, p`state, p`disabledUntil
      ensures Valid()
      ensures if !p.isLocal || (p.pid == pid && old(p.state) == Running)
              then p.state == Overloaded && p.disabledUntil == now + disableTime
              else p.state == old(p.state) && p.disabledUntil == old(p.disabledUntil)
    {
      hide Count, States, Linked;
      if !p.isLocal || (p.pid == pid && p.state == Running) {
        p.disabledUntil := now + disableTime;
        Mark(p, Overloaded);
      }
    }

    /** proc_check_enable */
    method CheckEnable(p: Proc, now: int)
      requires Valid() && p in procs
      modifies this`active, p`state
      ensures Valid()
      ensures p.state == if now > p.disabledUntil && old(p.state) == Overloaded then Running else old(p.state)
    {
      hide Count, States, Linked;
      if now <= p.disabledUntil { return; }
      if p.state != Overloaded { return; }
      Mark(p, Running);
    }

    /** proc_waitpid: has the process exited? */
    method WaitPid(p: Proc, exited: bool, now: int) returns (gone: bool)
      requires Valid() && (p in procs || p in idle)
      modifies this`active, p`state, p`pid, p`disabledUntil
      ensures Valid() && gone == (p.isLocal && old(p.pid) > 0 && exited)
      ensures gone ==> p.state == Died && p.pid == 0 && p.disabledUntil == (if old(p.state) == Killed then old(p.disabledUntil) else now)
      ensures !gone ==> p.state == old(p.state) && p.pid == old(p.pid) && p.disabledUntil == old(p.disabledUntil)
    {
      hide Count, States, Linked;
      if !p.isLocal || p.pid <= 0 || !exited { return false; }
      p.pid := 0;
      if p.state != Killed {
        p.disabledUntil := now;
      }
      Mark(p, Died);
      return true;
    }

    /** spawn_connection: on success the process runs. */
    method Launch(p: Proc, start: Start, now: int) returns (ok: bool)
      requires p.state == Running ==> active > 0
      modifies this`active, p`state, p`pid, p`isLocal, p`disabledUntil, p`lastUsed
      ensures ok == (start.InUse? || start.Started?)
      ensures active == old(active) - One(old(p.state)) + One(p.state)
      ensures ok ==> p.state == Running
      ensures !ok ==> p.state == (if start.Exited? then Died else old(p.state))
      ensures p.pid == match start { case NoSocket => old(p.pid) case Started(pid) => pid case _ => 0 }
      ensures p.isLocal == match start { case Exited => true case Started(_) => true case InUse => false case _ => old(p.isLocal) }
      ensures p.lastUsed == (if start.Exited? || start.Started? then now else old(p.lastUsed))
      ensures p.disabledUntil == (if start.NoFork? || (start.Exited? && old(p.state) != Killed) then now else old(p.disabledUntil))
    {
      match start
      case NoSocket => return false;
      case NoFork =>
        p.pid, p.disabledUntil := 0, now;
        return false;
      case Exited =>
        p.lastUsed, p.isLocal, p.pid := now, true, 0;
        if p.state != Killed {
          p.disabledUntil := now;
        }
        SetState(p, Died);
        return false;
      case InUse =>
        p.isLocal, p.pid := false, 0;
        SetState(p, Running);
        return true;
      case Started(pid) =>
        p.pid, p.lastUsed, p.isLocal := pid, now, true;
        SetState(p, Running);
        return true;
    }

    /** A process in use is started again. */
    method Respawn(p: Proc, start: Start, now: int) returns (ok: bool)
      requires Valid() && p in procs
      modifies this`active, p`state, p`pid, p`isLocal, p`disabledUntil, p`lastUsed
      ensures Valid() && ok == (start.InUse? || start.Started?)
      ensures p.state == if ok then Running else if start.Exited? then Died else old(p.state)
    {
      hide Count, States, Linked, Ordered;
      Members();
      ghost var k :| 0 <= k < |procs| && procs[k] == p;
      ghost var states := States(procs, mine);
      CountZero(states);
      assert states[k] == p.state;
      ok := Launch(p, start, now);
      CountUpdate(states, k, p.state);
      assert States(procs, mine) == states[k := p.state];
      assert States(idle, spare) == old(States(idle, spare));
    }

    // ------------------------------------------------------ moving processes

    /** A process leaves the list of those in use. */
    method Unlink(p: Proc, ghost k: nat)
      requires Shaped() && k < |procs| && procs[k] == p
      modifies this`first, this`procs, this`mine, mine`next, mine`prev
      ensures Shaped() && procs == Without(old(procs), k) && mine == old(mine) - {p} && p.prev == null
      ensures var states := old(States(procs, mine)); States(procs, mine) == states[..k] + states[k + 1..]
      ensures States(idle, spare) == old(States(idle, spare))
    {
      hide Linked, Bridged, Without, States;
      Members();
      ghost var s := procs;
      LinkedAt(s, first, mine, k);
      if p.prev == null { first := p.next; }
      Bridge(p, s, old(first), mine, k);
      BridgedKept(s, mine, k, At(s, 0));
      procs, mine := Without(s, k), mine - {p};
      Members();
      WithoutStates(s, old(States(procs, mine)), procs, mine, k);
    }

    /** A process leaves the list of those set aside. */
    method TakeIdle(p: Proc, ghost k: nat)
      requires Shaped() && k < |idle| && idle[k] == p
      modifies this`unused, this`idle, this`spare, spare`next, spare`prev
      ensures Shaped() && idle == Without(old(idle), k) && spare == old(spare) - {p} && p.prev == null && p.next == null
    {
      hide Linked, Bridged, Without;
      ghost var s := idle;
      LinkedAt(s, unused, spare, k);
      if p == unused { unused := p.next; }
      Bridge(p, s, old(unused), spare, k);
      ClearNext(p, s, spare, k);
      BridgedKept(s, spare, k, At(s, 0));
      idle, spare := Without(s, k), spare - {p};
    }

    method LinkIdle(p: Proc)
      requires Shaped() && p !in mine && p !in spare && p.prev == null
      modifies this`unused, this`idle, this`spare, spare`prev, p`next
      ensures Shaped() && idle == [p] + old(idle) && spare == old(spare) + {p}
      ensures States(idle, spare) == [p.state] + old(States(idle, spare)) && States(procs, mine) == old(States(procs, mine))
    {
      hide States, Linked, Ordered;
      Members();
      PushFront(p, unused, idle, spare);
      unused := p;
      idle, spare := [p] + idle, spare + {p};
      Members();
    }

    method LinkFirst(p: Proc)
      requires Shaped() && p !in mine && p !in spare && p.prev == null
      modifies this`first, this`procs, this`mine, mine`prev, p`next
      ensures Shaped() && procs == [p] + old(procs) && mine == old(mine) + {p}
      ensures States(procs, mine) == [p.state] + old(States(procs, mine)) && States(idle, spare) == old(States(idle, spare))
    {
      hide States, Linked, Ordered;
      Members();
      PushFront(p, first, procs, mine);
      first := p;
      procs, mine := [p] + procs, mine + {p};
      Members();
    }

    /** Only new processes join. */
    twostate predicate Grows()
      reads this
    {
      fresh(mine - old(mine) - old(spare)) && fresh(spare - old(mine) - old(spare))
    }

    /** proc_kill: a process in use is set aside. */
    method Kill(p: Proc, ghost k: nat)
      requires Valid() && p in mine && k < |procs| && procs[k] == p
      modifies this, mine`next, mine`prev, spare`prev, p`state, p`disabledUntil
      ensures Valid() && Grows() && p in idle && p.state == Killed
      ensures active == old(active) - One(old(p.state)) && numProcs == old(numProcs) - 1 && maxId == old(maxId)
      ensures idle == [p] + old(idle) && procs == Without(old(procs), k)
    {
      hide Count, States, Linked, Ordered, Without, Host.Shaped;
      Members();
      ghost var states := States(procs, mine);
      CountZero(states);
      assert states[k] == p.state;
      CountRemove(states, k);
      SetAside(p, k);
      p.disabledUntil := 0;
      Retire(p);
      numProcs := numProcs - 1;
    }

    /** A process moves from the one list to the other. */
    method SetAside(p: Proc, ghost k: nat)
      requires Shaped() && k < |procs| && procs[k] == p
      modifies this`first, this`unused, this`procs, this`idle, this`mine, this`spare, mine`next, mine`prev, spare`prev
      ensures Shaped() && idle == [p] + old(idle) && procs == Without(old(procs), k)
      ensures mine <= old(mine) && spare == old(spare) + {p} && p in old(mine)
      ensures var states := old(States(procs, mine)); States(procs, mine) == states[..k] + states[k + 1..]
      ensures States(idle, spare) == [p.state] + old(States(idle, spare))
    {
      hide States, Linked, Ordered, Without, Host.Shaped;
      Members();
      Unlink(p, k);
      Members();
      LinkIdle(p);
    }

    /** The process just set aside is marked as killed. */
    method Retire(p: Proc)
      requires Shaped() && idle != [] && p == idle[0] && (p.state == Running ==> active > 0)
      requires NoneRunning(States(idle, spare)[1..])
      modifies this`active, p`state
      ensures Shaped() && NoneRunning(States(idle, spare)) && p.state == Killed
      ensures States(procs, mine) == old(States(procs, mine)) && active == old(active) - One(old(p.state))
    {
      hide States, Linked;
      Members();
      SetState(p, Killed);
      assert forall i :: 0 < i < |idle| ==> States(idle, spare)[i] == old(States(idle, spare))[1..][i - 1];
    }

    /** A process set aside that has exited, unless one has exited just now. */
    method FindIdle(now: int) returns (p: Proc?, wait: bool, ghost k: int)
      requires Shaped()
      ensures FirstFree(idle, spare, k) && (p == null <==> k < 0) && (k >= 0 ==> p == idle[k])
      ensures wait == (p != null && p.disabledUntil >= now)
    {
      hide Linked;
      Members();
      p := unused;
      ghost var i := 0;
      ListAt(idle, unused, spare, 0);
      while p != null
        invariant 0 <= i <= |idle| && p == At(idle, i)
        invariant forall j :: 0 <= j < i ==> idle[j] in spare && idle[j].pid > 0
        decreases |idle| - i
      {
        ListAt(idle, unused, spare, i);
        if p.pid <= 0 {
          if p.disabledUntil >= now { return p, true, i; }
          return p, false, i;
        }
        p := p.next;
        i := i + 1;
      }
      ListAt(idle, unused, spare, i);
      return null, false, -1;
    }

    /** The process to start: one that was set aside, or a new one. */
    method PickProc(now: int) returns (p: Proc?, ghost k: int)
      requires Valid()
      modifies this`unused, this`idle, this`spare, this`maxId, spare`next, spare`prev
      ensures Valid() && Grows() && spare <= old(spare) && old(FirstFree(idle, spare, k))
      ensures k < 0 ==> p != null && fresh(p) && p.id == old(maxId) && maxId == old(maxId) + 1 && idle == old(idle)
      ensures k >= 0 ==> maxId == old(maxId) && (p == null <==> old(idle[k].disabledUntil) >= now)
      ensures k >= 0 ==> if p == null then idle == old(idle) else p == old(idle[k]) && idle == Without(old(idle), k)
      ensures p != null ==> p !in mine && p !in spare && p.prev == null && p.state != Running && (fresh(p) || p in old(spare))
    {
      hide Count, States, Linked, Ordered, Without, FirstFree;
      Members();
      var q, wait;
      q, wait, k := FindIdle(now);
      FreePlace(k);
      if wait { return null, k; }
      if q != null {
        ghost var aside := States(idle, spare);
        assert aside[k] == q.state;
        TakeIdle(q, k);
        Members();
        WithoutStates(old(idle), aside, idle, spare, k);
        assert States(procs, mine) == old(States(procs, mine));
        return q, k;
      }
      p := new Proc(maxId);
      maxId := maxId + 1;
    }

    lemma FreePlace(k: int)
      requires FirstFree(idle, spare, k)
      ensures k >= 0 ==> k < |idle| && idle[k] in spare && idle[k].pid <= 0
    {
    }

    twostate predicate Same()
      reads this
    {
      procs == old(procs) && idle == old(idle) && numProcs == old(numProcs) && maxId == old(maxId) && active == old(active)
    }

    /**
      What starting a process more does: the first one set aside that has exited, or a
      new one, joins in front if it starts and is set aside if it does not. Nothing
      happens if that one has exited just now, and it is dropped if it has no address.
     */
    twostate predicate Spawned(k: int, address: bool, start: Start, now: int)
      reads this
    {
      && old(FirstFree(idle, spare, k))
      && if k >= 0 && old(idle[k].disabledUntil) >= now then Same()
         else
           var rest := if k < 0 then old(idle) else Without(old(idle), k);
           if !address then procs == old(procs) && idle == rest && numProcs == old(numProcs) && active == old(active)
           else
             && numProcs == old(numProcs) + 1 && maxId == old(maxId) + (if k < 0 then 1 else 0)
             && if start.InUse? || start.Started? then
                  procs != [] && procs[1..] == old(procs) && idle == rest && active == old(active) + 1
                  && (k >= 0 ==> procs[0] == old(idle)[k])
                else
                  idle != [] && idle[1..] == rest && procs == old(procs) && active == old(active)
                  && (k >= 0 ==> idle[0] == old(idle)[k])
    }

    /** proc_spawn: a process more, if it starts. */
    method Spawn(address: bool, start: Start, now: int) returns (ghost k: int)
      requires Valid()
      modifies this, mine`prev, spare
      ensures Valid() && Grows() && Spawned(k, address, start, now)
    {
      hide Count, States, Linked, Ordered, Without, FirstFree, Host.Shaped;
      Members();
      var p;
      p, k := PickProc(now);
      if p == null { return; }
      numProcs := numProcs + 1;
      if !address {
        numProcs := numProcs - 1;
        if p.id == maxId - 1 { maxId := maxId - 1; }
        return;
      }
      Enlist(p, start, now);
    }

    /** A process on no list is started and listed with those in use, or set aside if it does not start. */
    method Enlist(p: Proc, start: Start, now: int)
      requires Valid() && p !in mine && p !in spare && p.prev == null && p.state != Running
      modifies this`first, this`unused, this`active, this`procs, this`idle, this`mine, this`spare, mine`prev, spare`prev, p
      ensures Valid() && numProcs == old(numProcs) && maxId == old(maxId) && mine <= old(mine) + {p} && spare <= old(spare) + {p}
      ensures active == old(active) + if start.InUse? || start.Started? then 1 else 0
      ensures if start.InUse? || start.Started? then procs == [p] + old(procs) && idle == old(idle)
              else procs == old(procs) && idle == [p] + old(idle)
    {
      hide Count, States, Linked, Ordered, Host.Shaped;
      Members();
      ghost var states := States(procs, mine);
      var ok := Launch(p, start, now);
      if !ok {
        LinkIdle(p);
      } else {
        LinkFirst(p);
        CountFront(p.state, states);
      }
    }

    // ------------------------------------------------------------ whole lists

    /** One process in use is looked after: enabled again, or restarted once it has died. */
    method Revive(p: Proc, hasBin: bool, exited: bool, start: Start, now: int)
      requires Valid() && p in procs
      modifies this`active, p`state, p`pid, p`isLocal, p`disabledUntil, p`lastUsed
      ensures Valid()
      ensures p.state == Revived(old(p.state), old(p.isLocal) && old(p.pid) > 0 && exited, hasBin, p.load, old(p.disabledUntil), start, now)
    {
      hide Count, States, Linked, Ordered;
      match p.state {
        case Running => return;
        case Overloaded =>
          CheckEnable(p, now);
          return;
        case Killed => return;
        case DiedWaitForPid =>
          var gone := WaitPid(p, exited, now);
          if !gone { CheckEnable(p, now); }
          if p.state != Died { return; }
        case Died =>
      }
      if !hasBin {
        CheckEnable(p, now);
        return;
      }
      if p.load != 0 || p.disabledUntil >= now { return; }
      var ok := Respawn(p, start, now);
    }

    /** restart_dead_procs */
    method RestartDeadProcs(hasBin: bool, exited: int -> bool, start: int -> Start, now: int)
      requires Valid()
      modifies this`active, mine`state, mine`pid, mine`isLocal, mine`disabledUntil, mine`lastUsed
      ensures Valid()
      ensures forall j :: 0 <= j < |procs| ==>
                procs[j].state == Revived(old(procs[j].state), old(procs[j].isLocal && procs[j].pid > 0) && exited(procs[j].id),
                                          hasBin, procs[j].load, old(procs[j].disabledUntil), start(procs[j].id), now)
    {
      hide Count, States, Linked, Ordered, Host.Shaped, Revived;
      Members();
      var p := first;
      ghost var i := 0;
      EachProc(0);
      while p != null
        invariant Valid() && 0 <= i <= |procs| && p == At(procs, i)
        invariant forall j :: 0 <= j < i ==>
                    procs[j].state == Revived(old(procs[j].state), old(procs[j].isLocal && procs[j].pid > 0) && exited(procs[j].id),
                                              hasBin, procs[j].load, old(procs[j].disabledUntil), start(procs[j].id), now)
        invariant forall j :: i <= j < |procs| ==>
                    && procs[j].state == old(procs[j].state) && procs[j].isLocal == old(procs[j].isLocal)
                    && procs[j].pid == old(procs[j].pid) && procs[j].disabledUntil == old(procs[j].disabledUntil)
        decreases |procs| - i
      {
        EachProc(i);
        Revive(p, hasBin, exited(p.id), start(p.id), now);
        EachProc(i);
        p := p.next;
        i := i + 1;
      }
      EachProc(i);
    }

    lemma EachProc(i: nat)
      requires Shaped()
      ensures first == At(procs, 0) && (i < |procs| ==> At(procs, i) != null && procs[i] in mine && procs[i] in procs && procs[i].next == At(procs, i + 1))
      ensures i >= |procs| ==> At(procs, i) == null
    {
    }

    lemma EachIdle(i: nat)
      requires Shaped()
      ensures unused == At(idle, 0) && (i < |idle| ==> At(idle, i) != null && idle[i] in spare && idle[i] in idle && idle[i].next == At(idle, i + 1))
      ensures i >= |idle| ==> At(idle, i) == null
    {
    }

    /** A process that has exited is dead and has no pid; any other is as it was. */
    twostate predicate Reaped(p: Proc, gone: bool, now: int)
      reads p
    {
      if gone then p.state == Died && p.pid == 0 && p.disabledUntil == (if old(p.state) == Killed then old(p.disabledUntil) else now)
      else p.state == old(p.state) && p.pid == old(p.pid) && p.disabledUntil == old(p.disabledUntil)
    }

    /** Looks for processes in use that have exited. */
    method ReapProcs(exited: int -> bool, now: int)
      requires Valid()
      modifies this`active, mine`state, mine`pid, mine`disabledUntil
      ensures Valid()
      ensures forall j :: 0 <= j < |procs| ==>
                Reaped(procs[j], procs[j].isLocal && old(procs[j].pid) > 0 && exited(procs[j].id), now)
    {
      hide Count, States, Linked, Ordered, Host.Shaped;
      Members();
      var p := first;
      ghost var i := 0;
      EachProc(0);
      while p != null
        invariant Valid() && 0 <= i <= |procs| && p == At(procs, i)
        invariant forall j :: 0 <= j < i ==>
                    Reaped(procs[j], procs[j].isLocal && old(procs[j].pid) > 0 && exited(procs[j].id), now)
        invariant forall j :: i <= j < |procs| ==> Reaped(procs[j], false, now)
        decreases |procs| - i
      {
        EachProc(i);
        var gone := WaitPid(p, exited(p.id), now);
        EachProc(i);
        p := p.next;
        i := i + 1;
      }
      EachProc(i);
    }

    /** Looks for processes set aside that have exited. */
    method ReapIdle(exited: int -> bool, now: int)
      requires Valid()
      modifies this`active, spare`state, spare`pid, spare`disabledUntil
      ensures Valid() && active == old(active)
      ensures forall j :: 0 <= j < |idle| ==>
                idle[j].state == if idle[j].isLocal && old(idle[j].pid) > 0 && exited(idle[j].id) then Died else old(idle[j].state)
    {
      hide Count, States, Linked, Ordered, Host.Shaped;
      Members();
      var p := unused;
      ghost var i := 0;
      EachIdle(0);
      while p != null
        invariant Valid() && active == old(active) && 0 <= i <= |idle| && p == At(idle, i)
        invariant forall j :: 0 <= j < i ==>
                    idle[j].state == if idle[j].isLocal && old(idle[j].pid) > 0 && exited(idle[j].id) then Died else old(idle[j].state)
        invariant forall j :: i <= j < |idle| ==> idle[j].state == old(idle[j].state) && idle[j].pid == old(idle[j].pid)
        decreases |idle| - i
      {
        EachIdle(i);
        var gone := WaitPid(p, exited(p.id), now);
        EachIdle(i);
        p := p.next;
        i := i + 1;
      }
      EachIdle(i);
    }

    /** Does every process in use carry more than its share? */
    method Overload(maxLoad: int) returns (all: bool)
      requires Valid()
      ensures all <==> forall i :: 0 <= i < |procs| ==> procs[i].load > maxLoad
    {
      hide Count, States, Linked, Ordered, Host.Shaped;
      var p := first;
      ghost var i := 0;
      EachProc(0);
      while p != null
        invariant 0 <= i <= |procs| && p == At(procs, i)
        invariant forall j :: 0 <= j < i ==> procs[j].load > maxLoad
        decreases |procs| - i
      {
        EachProc(i);
        if p.load <= maxLoad { return false; }
        p := p.next;
        i := i + 1;
      }
      EachProc(i);
      return true;
    }

    /** The first process that has been idle for long enough. */
    method FindTired(idleSince: int) returns (p: Proc?, ghost k: int)
      requires Valid()
      ensures p == null <==> k < 0
      ensures p != null ==> k < |procs| && procs[k] == p && p in mine && Tired(p, idleSince)
      ensures forall j :: 0 <= j < |procs| && (k < 0 || j < k) ==> !Tired(procs[j], idleSince)
    {
      hide Count, States, Linked, Ordered, Host.Shaped;
      p := first;
      k := 0;
      EachProc(0);
      while p != null
        invariant 0 <= k <= |procs| && p == At(procs, k)
        invariant forall j :: 0 <= j < k ==> !Tired(procs[j], idleSince)
        decreases |procs| - k
      {
        EachProc(k);
        if p.load == 0 && p.pid > 0 && p.lastUsed < idleSince { return; }
        p := p.next;
        k := k + 1;
      }
      EachProc(k);
      k := -1;
    }

    /** Every process in use carries more than its share, and there may be more of them. */
    ghost predicate WantsMore(c: Config)
      reads this`procs, this`numProcs, this`mine, mine
      requires forall i :: 0 <= i < |procs| ==> procs[i] in mine
    {
      (forall i :: 0 <= i < |procs| ==> procs[i].load > c.maxLoad) && 0 != numProcs < c.maxProcs
    }

    /** Under overload, and only then, a process more is started. */
    method AddProc(c: Config, w: World) returns (ghost k: int)
      requires Valid()
      modifies this, mine`prev, spare
      ensures Valid() && Grows()
      ensures if old(WantsMore(c)) then Spawned(k, w.address, w.start(old(maxId)), w.now) else Same()
    {
      hide Count, States, Linked, Ordered, Host.Shaped, Without;
      Members();
      k := -1;
      var overload := Overload(c.maxLoad);
      if overload && numProcs != 0 && numProcs < c.maxProcs {
        k := Spawn(w.address, w.start(maxId), w.now);
      }
    }

    /** If there are more processes than need be, the first that has long been idle is killed and set aside. */
    method DropProc(c: Config, w: World) returns (ghost k: int)
      requires Valid()
      modifies this, mine, spare
      ensures Valid() && Grows()
      ensures k >= 0 <==> old(numProcs) > c.minProcs && exists j :: 0 <= j < |old(procs)| && old(Tired(procs[j], w.now - c.idleTimeout))
      ensures k >= 0 ==> k < |old(procs)| && forall j :: 0 <= j < k ==> !old(Tired(procs[j], w.now - c.idleTimeout))
      ensures k >= 0 ==> old(Tired(procs[k], w.now - c.idleTimeout)) && old(procs)[k].state == Killed
      ensures k >= 0 ==> procs == Without(old(procs), k) && idle == [old(procs)[k]] + old(idle) && numProcs == old(numProcs) - 1
      ensures k < 0 ==> Same()
      ensures forall q :: q in procs ==> q in old(procs) && q.state == old(q.state)
    {
      hide Count, States, Linked, Ordered, Host.Shaped, Tired;
      Members();
      k := -1;
      if numProcs > c.minProcs {
        var p;
        p, k := FindTired(w.now - c.idleTimeout);
        if p != null { Kill(p, k); }
      }
    }

    /**
      handle_trigger_host: the work done once a second. `grown` is the list after a
      process may have been added, `dropped` the place of the one killed then, if any.
     */
    method Trigger(c: Config, w: World) returns (ghost grown: seq<Proc>, ghost dropped: int)
      requires Valid()
      modifies this, mine, spare
      ensures Valid() && Grows()
      ensures forall j :: 0 <= j < |old(procs)| && old(procs)[j] in procs ==>
                old(procs)[j].state == LookedAfter(old(procs[j].state), old(procs[j].isLocal && procs[j].pid > 0) && w.exited(old(procs)[j].id),
                                                   c.hasBin, old(procs[j].load), old(procs[j].disabledUntil), w.start(old(procs)[j].id), w.now)
      ensures c.minProcs == c.maxProcs || !c.hasBin ==> procs == old(procs) && idle == old(idle) && numProcs == old(numProcs)
      ensures grown != old(procs) ==>
                && grown != [] && grown[1..] == old(procs) && w.address
                && (forall j :: 0 <= j < |old(procs)| ==> old(procs[j].load) > c.maxLoad) && 0 != old(numProcs) < c.maxProcs
      ensures procs == if 0 <= dropped < |grown| then Without(grown, dropped) else grown
    {
      hide Count, States, Linked, Ordered, Host.Shaped, LookedAfter, Without;
      Members();
      grown, dropped := procs, -1;
      LookAfter(c.hasBin, w);
      if c.minProcs == c.maxProcs || !c.hasBin { return; }
      grown, dropped := Adapt(c, w);
      Members();
      ReapIdle(w.exited, w.now);
    }

    /** One process more under overload, one less that has long been idle. */
    method Adapt(c: Config, w: World) returns (ghost grown: seq<Proc>, ghost dropped: int)
      requires Valid()
      modifies this, mine, spare
      ensures Valid() && Grows()
      ensures forall q :: q in old(procs) && q in procs ==> q.state == old(q.state)
      ensures grown != old(procs) ==> grown != [] && grown[1..] == old(procs) && w.address && old(WantsMore(c))
      ensures procs == if 0 <= dropped < |grown| then Without(grown, dropped) else grown
    {
      hide Count, States, Linked, Ordered, Host.Shaped, Without, FirstFree, Tired, Host.WantsMore;
      Members();
      ghost var k := AddProc(c, w);
      Members();
      grown := procs;
      dropped := DropProc(c, w);
    }

    /** Exits are noticed, and the processes that have been dead for a while are started again. */
    method LookAfter(hasBin: bool, w: World)
      requires Valid()
      modifies this`active, mine`state, mine`pid, mine`isLocal, mine`disabledUntil, mine`lastUsed
      ensures Valid()
      ensures forall j :: 0 <= j < |procs| ==>
                procs[j].state == LookedAfter(old(procs[j].state), old(procs[j].isLocal && procs[j].pid > 0) && w.exited(procs[j].id),
                                              hasBin, procs[j].load, old(procs[j].disabledUntil), w.start(procs[j].id), w.now)
    {
      hide Count, States, Linked, Ordered, Host.Shaped;
      Members();
      ReapProcs(w.exited, w.now);
      RestartDeadProcs(hasBin, w.exited, w.start, w.now);
    }

    /**
      The search of GW_STATE_INIT: a running process with the least load, the first
      of several. There is one if and only if the counter is not zero.
     */
    method FindProc() returns (p: Proc?, ghost k: nat)
      requires Valid()
      ensures p == null <==> active == 0
      ensures p != null ==> k < |procs| && procs[k] == p && p.state == Running
      ensures p != null ==> forall j :: 0 <= j < |procs| && procs[j].state == Running ==> p.load <= procs[j].load
      ensures p != null ==> forall j :: 0 <= j < k && procs[j].state == Running ==> p.load < procs[j].load
    {
      hide Count, States, Linked, Ordered, Host.Shaped;
      Members();
      CountZero(States(procs, mine));
      var q := first;
      ghost var i := 0;
      EachProc(0);
      p, k := null, 0;
      while q != null && p == null
        invariant 0 <= i <= |procs| && q == At(procs, i)
        invariant forall j :: 0 <= j < i && j != k ==> procs[j].state != Running
        invariant p == null ==> forall j :: 0 <= j < i ==> procs[j].state != Running
        invariant p != null ==> k + 1 == i && procs[k] == p && p.state == Running
        decreases |procs| - i
      {
        EachProc(i);
        if q.state == Running { p, k := q, i; }
        q := q.next;
        i := i + 1;
      }
      EachProc(i);
      if p == null {
        assert forall j :: 0 <= j < |procs| ==> States(procs, mine)[j] != Running;
        return;
      }
      assert States(procs, mine)[k] == Running;
      while q != null
        invariant 0 <= i <= |procs| && q == At(procs, i)
        invariant p != null && k < i && procs[k] == p && p.state == Running
        invariant forall j :: 0 <= j < i && procs[j].state == Running ==> p.load <= procs[j].load
        invariant forall j :: 0 <= j < k && procs[j].state == Running ==> p.load < procs[j].load
        decreases |procs| - i
      {
        EachProc(i);
        if q.state == Running && q.load < p.load { p, k := q, i; }
        q := q.next;
        i := i + 1;
      }
      EachProc(i);
    }
  }

  datatype Config = Config(minProcs: int, maxProcs: int, hasBin: bool, maxLoad: int, idleTimeout: int)

  /** What the system answers: which processes have exited, how starts end, and the time. */
  datatype World = World(exited: int -> bool, start: int -> Start, address: bool, now: int)

  /** What can happen to a host; processes are named by their place in the list. */
  datatype Event =
    | Second(config: Config, world: World)
    | ConnectFailed(place: nat, aside: bool, pid: int, now: int, disableTime: int)
    | ChildExited(place: nat, aside: bool, now: int)
    | Restart(place: nat, start: Start, now: int)
    | SpawnMore(address: bool, start: Start, now: int)
    | KillOne(place: nat)
    | LoadChanged(place: nat, load: int)

  /** The process an event is about, or none. */
  method Nth(h: Host, place: nat, aside: bool) returns (p: Proc?)
    requires h.Valid()
    ensures p != null ==> if aside then p in h.idle && p in h.spare else p in h.procs && p in h.mine
  {
    hide Count, States, Linked, Ordered, Host.Shaped;
    p := if aside then h.unused else h.first;
    var n := 0;
    if aside { h.EachIdle(0); } else { h.EachProc(0); }
    while p != null && n < place
      invariant p == if aside then At(h.idle, n) else At(h.procs, n)
      decreases place - n
    {
      if aside { h.EachIdle(n); } else { h.EachProc(n); }
      p := p.next;
      n := n + 1;
    }
    if aside { h.EachIdle(n); } else { h.EachProc(n); }
  }

  method Happen(h: Host, e: Event)
    requires h.Valid()
    modifies h, h.mine, h.spare
    ensures h.Valid() && h.Grows()
  {
    hide Count, States, Linked, Ordered, Host.Shaped;
    match e
    case Second(config, world) => ghost var grown, dropped := h.Trigger(config, world);
    case ConnectFailed(place, aside, pid, now, disableTime) =>
      var p := Nth(h, place, aside);
      if p != null { h.ConnectError(p, pid, now, disableTime); }
    case ChildExited(place, aside, now) =>
      var p := Nth(h, place, aside);
      if p != null { var gone := h.WaitPid(p, true, now); }
    case Restart(place, start, now) =>
      var p := Nth(h, place, false);
      if p != null { var ok := h.Respawn(p, start, now); }
    case SpawnMore(address, start, now) => ghost var k := h.Spawn(address, start, now);
    case KillOne(place) =>
      var p := Nth(h, place, false);
      if p != null {
        ghost var k :| 0 <= k < |h.procs| && h.procs[k] == p;
        h.Kill(p, k);
      }
    case LoadChanged(place, load) =>
      var p := Nth(h, place, false);
      if p != null { p.load := load; }
  }

  /** In every state a host can reach, it has a running process if and only if its counter says so. */
  method Live(events: seq<Event>) returns (h: Host, p: Proc?)
    ensures h.Valid() && (p == null <==> h.active == 0) && (p != null ==> p in h.procs && p.state == Running)
  {
    hide Count, States, Linked, Ordered, Host.Shaped;
    h := new Host();
    var i := 0;
    while i < |events|
      invariant h.Valid() && fresh(h) && fresh(h.mine) && fresh(h.spare)
      decreases |events| - i
    {
      Happen(h, events[i]);
      i := i + 1;
    }
    ghost var k;
    p, k := h.FindProc();
  }

  lemma ListAt(s: seq<Proc>, head: Proc?, own: set<Proc>, i: nat)
    requires Linked(s, head, own)
    ensures head == At(s, 0)
    ensures i < |s| ==> At(s, i) != null && s[i] in own && s[i] in s && s[i].next == At(s, i + 1)
    ensures i >= |s| ==> At(s, i) == null
  {
  }

  lemma WithoutStates(s: seq<Proc>, states: seq<State>, t: seq<Proc>, own: set<Proc>, k: nat)
    requires k < |s| == |states| && t == Without(s, k) && (forall i :: 0 <= i < |t| ==> t[i] in own)
    requires forall i :: 0 <= i < |s| && i != k ==> s[i] in own && s[i].state == states[i]
    ensures States(t, own) == states[..k] + states[k + 1..]
  {
    assert forall i :: 0 <= i < |t| ==> t[i] == if i < k then s[i] else s[i + 1];
  }
}
