/** The server's list of sessions in src/proxy/proxy.c: linking, unlinking, the accept loop,
    the timeout tick and the shutdown loop. */
module SessionList {
  /** The clock fields of a session, in seconds. */
  datatype Times = Times(connecting: bool, connectStartedAt: int, handshakeDone: bool, createdAt: int, lastActivityAt: int)

  /** Timeouts in milliseconds; zero switches one off. */
  datatype Timeouts = Timeouts(handshake: nat, idle: nat, connect: nat)

  /** session_is_expired. */
  predicate IsExpired(t: Times, limits: Timeouts, now: int) {
    || (t.connecting && limits.connect != 0 && t.connectStartedAt != 0
        && (now - t.connectStartedAt) * 1000 >= limits.connect)
    || (!t.handshakeDone && limits.handshake != 0 && (now - t.createdAt) * 1000 >= limits.handshake)
    || (t.handshakeDone && limits.idle != 0 && (now - t.lastActivityAt) * 1000 >= limits.idle)
  }

  /** Once expired, a session that nothing touches stays expired. */
  lemma ExpiryIsMonotone(t: Times, limits: Timeouts, now: int, later: int)
    requires IsExpired(t, limits, now) && now <= later
    ensures IsExpired(t, limits, later)
  {
  }

  /** A session that has its connection expires by its last activity alone, whenever it began. */
  lemma IdleExpiry(createdAt: int, lastActivityAt: int, connectStartedAt: int, limits: Timeouts, now: int)
    ensures
      IsExpired(Times(false, connectStartedAt, true, createdAt, lastActivityAt), limits, now)
      <==> limits.idle > 0 && 1000 * now >= 1000 * lastActivityAt + limits.idle
  {
  }

  /** A session that waits for its request expires by its age alone, however active it is. */
  lemma HandshakeExpiry(createdAt: int, lastActivityAt: int, connectStartedAt: int, limits: Timeouts, now: int)
    ensures
      IsExpired(Times(false, connectStartedAt, false, createdAt, lastActivityAt), limits, now)
      <==> limits.handshake > 0 && 1000 * now >= 1000 * createdAt + limits.handshake
    ensures
      IsExpired(NewTimes(createdAt), limits, now)
      <==> limits.handshake > 0 && 1000 * now >= 1000 * createdAt + limits.handshake
  {
  }

  /** A session that waits for its target expires by the time that connecting takes, or when idle. */
  lemma ConnectExpiry(createdAt: int, lastActivityAt: int, connectStartedAt: int, limits: Timeouts, now: int)
    requires connectStartedAt != 0
    ensures
      IsExpired(Times(true, connectStartedAt, true, createdAt, lastActivityAt), limits, now)
      <==> || (limits.connect > 0 && 1000 * now >= 1000 * connectStartedAt + limits.connect)
           || (limits.idle > 0 && 1000 * now >= 1000 * lastActivityAt + limits.idle)
  {
  }

  /** A later tick makes an earlier one superfluous, if nothing is touched in between. */
  lemma {:induction false} LaterTick(clocks: seq<Times>, limits: Timeouts, now: int, later: int)
    requires now <= later
    ensures Unexpired(Unexpired(clocks, limits, now), limits, later) == Unexpired(clocks, limits, later)
  {
    hide IsExpired;
    if clocks != [] {
      LaterTick(clocks[1..], limits, now, later);
      if IsExpired(clocks[0], limits, now) {
        ExpiryIsMonotone(clocks[0], limits, now, later);
        assert [] + Unexpired(clocks[1..], limits, now) == Unexpired(clocks[1..], limits, now);
        assert [] + Unexpired(clocks[1..], limits, later) == Unexpired(clocks[1..], limits, later);
      } else {
        var rest := Unexpired(clocks[1..], limits, now);
        assert ([clocks[0]] + rest)[1..] == rest;
      }
    }
  }

  class Node {
    var times: Times
    var next: Node?
    var prev: Node?
    var closing: nat

    constructor (times: Times)
      ensures this.times == times && next == null && prev == null && closing == 0
    {
      this.times := times;
      next, prev, closing := null, null, 0;
    }
  }

  function At(list: seq<Node>, i: int): Node? {
    if 0 <= i < |list| then list[i] else null
  }

  predicate Distinct(list: seq<Node>) {
    forall i, j :: 0 <= i < j < |list| ==> list[i] != list[j]
  }

  /** A node points to its neighbours. */
  ghost predicate LinkAt(list: seq<Node>, i: int)
    requires 0 <= i < |list|
    reads list[i]
  {
    list[i].next == At(list, i + 1) && list[i].prev == At(list, i - 1)
  }

  /** A session of the list, with its clock fields. */
  datatype Entry = Entry(node: Node, times: Times)

  /** The entries that stay when those expired at `now` go, in order. */
  function Alive(list: seq<Entry>, limits: Timeouts, now: int): (r: seq<Entry>)
    ensures forall e <- r :: e in list && !IsExpired(e.times, limits, now)
    ensures forall e <- list :: !IsExpired(e.times, limits, now) ==> e in r
  {
    if list == [] then []
    else
      var rest := Alive(list[1..], limits, now);
      assert list == [list[0]] + list[1..];
      if IsExpired(list[0].times, limits, now) then rest else [list[0]] + rest
  }

  lemma {:induction false} AllAlive(list: seq<Entry>, limits: Timeouts, now: int)
    requires limits == Timeouts(0, 0, 0)
    ensures Alive(list, limits, now) == list
  {
    if list != [] {
      AllAlive(list[1..], limits, now);
      assert list == [list[0]] + list[1..];
    }
  }

  lemma AliveUnfold(list: seq<Entry>, limits: Timeouts, now: int)
    requires list != []
    ensures
      var rest := Alive(list[1..], limits, now);
      Alive(list, limits, now) == if IsExpired(list[0].times, limits, now) then rest else [list[0]] + rest
  {
    hide IsExpired;
  }

  /** Passing one entry: keeping it or closing it leaves the same survivors to come. */
  lemma AliveStep(list: seq<Entry>, k: nat, limits: Timeouts, now: int)
    requires k < |list|
    ensures
      var gone := list[..k] + list[k + 1..];
      if IsExpired(list[k].times, limits, now)
      then gone[..k] + Alive(gone[k..], limits, now) == list[..k] + Alive(list[k..], limits, now)
      else list[..k + 1] + Alive(list[k + 1..], limits, now) == list[..k] + Alive(list[k..], limits, now)
  {
    hide IsExpired, Alive;
    var gone := list[..k] + list[k + 1..];
    AliveUnfold(list[k..], limits, now);
    assert list[k..][1..] == list[k + 1..];
    assert gone[..k] == list[..k] && gone[k..] == list[k + 1..];
    assert list[..k + 1] == list[..k] + [list[k]];
  }

  lemma AliveEnd(list: seq<Entry>, limits: Timeouts, now: int)
    ensures list[..|list|] + Alive(list[|list|..], limits, now) == list
  {
    hide IsExpired;
  }

  // ---------------------------------------------------------------------
  // The list as a value
  // ---------------------------------------------------------------------

  /** What the accept loop meets: no client waiting, an error, or a client whose session is
      created at some time or not at all. */
  datatype Arrival = NoneWaiting | AcceptError | Client(created: bool, now: int)

  /** The clock fields of a new session. */
  function NewTimes(now: int): Times {
    Times(false, 0, false, now, now)
  }

  /** The sessions after the accept loop: new ones in front, within the limit. */
  function Accepted(clocks: seq<Times>, arrivals: seq<Arrival>, budget: nat, limit: nat): (r: seq<Times>)
    ensures |clocks| <= limit ==> |r| <= limit
    decreases budget
  {
    if budget == 0 || arrivals == [] then clocks
    else match arrivals[0]
      case NoneWaiting => clocks
      case AcceptError => clocks
      case Client(created, now) =>
        if |clocks| >= limit then Accepted(clocks, arrivals[1..], budget - 1, limit)
        else if !created then clocks
        else Accepted([NewTimes(now)] + clocks, arrivals[1..], budget - 1, limit)
  }

  lemma SuffixOfSuffix(r: seq<Times>, x: Times, s: seq<Times>)
    requires |s| < |r| && r[|r| - |s| - 1..] == [x] + s
    ensures r[|r| - |s|..] == s
  {
    assert r[|r| - |s|..] == r[|r| - |s| - 1..][1..];
  }

  /** The sessions that were there stay behind the new ones, which are no more than the budget. */
  lemma {:induction false} AcceptedFront(clocks: seq<Times>, arrivals: seq<Arrival>, budget: nat, limit: nat)
    ensures
      var r := Accepted(clocks, arrivals, budget, limit);
      |clocks| <= |r| <= |clocks| + budget && r[|r| - |clocks|..] == clocks
    decreases budget
  {
    if budget > 0 && arrivals != [] && arrivals[0].Client? {
      if |clocks| >= limit {
        AcceptedFront(clocks, arrivals[1..], budget - 1, limit);
      } else if arrivals[0].created {
        var more := [NewTimes(arrivals[0].now)] + clocks;
        AcceptedFront(more, arrivals[1..], budget - 1, limit);
        SuffixOfSuffix(Accepted(more, arrivals[1..], budget - 1, limit), NewTimes(arrivals[0].now), clocks);
      }
    }
  }

  /** As long as there is room and budget, every client gets a session. */
  lemma {:induction false} AcceptedAll(clocks: seq<Times>, arrivals: seq<Arrival>, budget: nat, limit: nat)
    requires forall a <- arrivals :: a.Client? && a.created
    requires |arrivals| <= budget && |clocks| + |arrivals| <= limit
    ensures |Accepted(clocks, arrivals, budget, limit)| == |clocks| + |arrivals|
    decreases budget
  {
    if arrivals != [] {
      assert arrivals[0] in arrivals;
      AcceptedAll([NewTimes(arrivals[0].now)] + clocks, arrivals[1..], budget - 1, limit);
    }
  }

  lemma AcceptedUnfold(clocks: seq<Times>, arrivals: seq<Arrival>, k: nat, budget: nat, limit: nat)
    requires k <= |arrivals| && k <= budget
    ensures Accepted(clocks, arrivals[k..], budget - k, limit) ==
      if k == budget || k == |arrivals| || !arrivals[k].Client? then clocks
      else if |clocks| >= limit then Accepted(clocks, arrivals[k + 1..], budget - k - 1, limit)
      else if !arrivals[k].created then clocks
      else Accepted([NewTimes(arrivals[k].now)] + clocks, arrivals[k + 1..], budget - k - 1, limit)
  {
    assert k < |arrivals| ==> arrivals[k..][0] == arrivals[k] && arrivals[k..][1..] == arrivals[k + 1..];
  }

  function Unexpired(clocks: seq<Times>, limits: Timeouts, now: int): (r: seq<Times>)
    ensures |r| <= |clocks|
  {
    if clocks == [] then []
    else (if IsExpired(clocks[0], limits, now) then [] else [clocks[0]]) + Unexpired(clocks[1..], limits, now)
  }

  function ClocksOf(list: seq<Entry>): (r: seq<Times>)
    ensures |r| == |list|
  {
    seq(|list|, i requires 0 <= i < |list| => list[i].times)
  }

  lemma {:induction false} AliveClocks(list: seq<Entry>, limits: Timeouts, now: int)
    ensures ClocksOf(Alive(list, limits, now)) == Unexpired(ClocksOf(list), limits, now)
  {
    hide IsExpired;
    if list != [] {
      AliveClocks(list[1..], limits, now);
      assert ClocksOf(list)[1..] == ClocksOf(list[1..]);
    }
  }

  datatype Op =
    | AcceptSome(budget: nat, arrivals: seq<Arrival>)
    | TickAt(now: int)
    | CloseAt(index: nat)
    | Touch(index: nat, times: Times)

  function Apply(clocks: seq<Times>, op: Op, limit: nat, limits: Timeouts): (r: seq<Times>)
    ensures |clocks| <= limit ==> |r| <= limit
  {
    match op
    case AcceptSome(budget, arrivals) => Accepted(clocks, arrivals, budget, limit)
    case TickAt(now) => Unexpired(clocks, limits, now)
    case CloseAt(i) => if i < |clocks| then clocks[..i] + clocks[i + 1..] else clocks
    case Touch(i, times) => if i < |clocks| then clocks[i := times] else clocks
  }

  function ApplyAll(ops: seq<Op>, limit: nat, limits: Timeouts): (r: seq<Times>)
    ensures |r| <= limit
  {
    if ops == [] then [] else Apply(ApplyAll(ops[..|ops| - 1], limit, limits), ops[|ops| - 1], limit, limits)
  }

  class Server {
    const maxConnections: nat
    const limits: Timeouts
    var sessions: Node?
    var activeConnections: nat
    /** The sessions, newest first. */
    ghost var list: seq<Node>

    ghost function Nodes(): set<Node>
      reads this
    {
      set n | n in list
    }

    ghost predicate Chained()
      reads this, Nodes()
    {
      && Distinct(list) && sessions == At(list, 0) && activeConnections == |list|
      && forall i :: 0 <= i < |list| ==> LinkAt(list, i)
    }

    ghost predicate Valid()
      reads this, Nodes()
    {
      && Chained() && |list| <= maxConnections
      && forall n <- list :: n.closing != 2
    }

    /** The list with the clock fields of its sessions. */
    ghost function Entries(): (r: seq<Entry>)
      reads this, Nodes()
      ensures |r| == |list|
    {
      seq(|list|, i requires 0 <= i < |list| reads this, Nodes() => Entry(list[i], list[i].times))
    }

    ghost function Clocks(): (r: seq<Times>)
      reads this, Nodes()
      ensures |r| == |list|
    {
      ClocksOf(Entries())
    }

    constructor (maxConnections: nat, limits: Timeouts)
      ensures Valid() && list == [] && this.maxConnections == maxConnections && this.limits == limits
    {
      this.maxConnections, this.limits := maxConnections, limits;
      sessions, activeConnections, list := null, 0, [];
    }

    /** The end of session_create. */
    method Link(n: Node)
      requires Valid() && n !in list && n.closing != 2 && activeConnections < maxConnections
      modifies this`sessions, this`activeConnections, this`list, n`next, n`prev, Nodes()`prev
      ensures Valid() && list == [n] + old(list)
    {
      assert list != [] ==> LinkAt(list, 0);
      n.next := sessions;
      n.prev := null;
      if sessions != null {
        sessions.prev := n;
      }
      sessions := n;
      activeConnections := activeConnections + 1;
      list := [n] + list;
      forall j | 0 <= j < |list|
        ensures LinkAt(list, j)
      {
        assert j > 0 ==> old(LinkAt(list, j - 1));
      }
    }

    /** server_unlink_session, for a session in the list and for one that is not. */
    method Unlink(n: Node, ghost i: int)
      requires Chained()
      requires if 0 <= i < |list| then list[i] == n else n !in list && n.prev == null
      modifies this`sessions, this`activeConnections, this`list, n`next, n`prev, Nodes()`next, Nodes()`prev
      ensures Chained() && n !in list
      ensures list == if 0 <= i < old(|list|) then old(list)[..i] + old(list)[i + 1..] else old(list)
    {
      assert 0 <= i < |list| ==> LinkAt(list, i);
      if n.prev != null {
        n.prev.next := n.next;
      } else if sessions == n {
        sessions := n.next;
      } else {
        return;
      }
      if n.next != null {
        n.next.prev := n.prev;
      }
      n.prev := null;
      n.next := null;
      if activeConnections != 0 {
        activeConnections := activeConnections - 1;
      }
      list := list[..i] + list[i + 1..];
      ghost var was := old(list);
      assert 0 < i ==> was[i - 1].next == At(was, i + 1);
      assert i + 1 < |was| ==> was[i + 1].prev == At(was, i - 1);
      forall j | 0 <= j < |list|
        ensures LinkAt(list, j)
      {
        var k := if j < i then j else j + 1;
        assert old(LinkAt(list, k));
        assert At(list, j + 1) == At(was, if j + 1 < i then j + 1 else j + 2);
        assert At(list, j - 1) == At(was, if j - 1 < i then j - 1 else j);
        assert list[j] == was[k] && was[k] != n;
        assert k != i - 1 ==> was[k] != At(was, i - 1);
        assert k != i + 1 ==> was[k] != At(was, i + 1);
      }
    }

    /** The list part of session_close. */
    method CloseSession(n: Node, ghost i: int)
      requires Valid() && 0 <= i < |list| && list[i] == n
      modifies this`sessions, this`activeConnections, this`list, Nodes()`next, Nodes()`prev, Nodes()`closing
      ensures Valid() && list == old(list)[..i] + old(list)[i + 1..] && n !in list && n.closing == 2
      ensures Entries() == old(Entries())[..i] + old(Entries())[i + 1..]
    {
      if n.closing == 2 {
        return;
      }
      Unlink(n, i);
      n.closing := 2;
    }

    /** The loop at the end of sockify_proxy_run: no session is left. */
    method Shutdown()
      requires Valid()
      modifies this`sessions, this`activeConnections, this`list, Nodes()`next, Nodes()`prev, Nodes()`closing
      ensures Valid() && list == [] && sessions == null && activeConnections == 0
      ensures forall n <- old(list) :: n.closing == 2
    {
      hide LinkAt, Distinct;
      while sessions != null
        invariant Valid()
        invariant Nodes() <= old(Nodes()) && forall n <- old(list) :: n in list || n.closing == 2
        decreases |list|
      {
        ghost var before := list;
        CloseSession(sessions, 0);
        assert before == [before[0]] + list;
      }
    }

    method Successor(n: Node, ghost i: int) returns (next: Node?)
      requires Chained() && 0 <= i < |list| && list[i] == n
      ensures next == At(list, i + 1) && Entries()[i].times == n.times
    {
      assert LinkAt(list, i);
      return n.next;
    }

    /** proxy_tick: exactly the sessions that have not expired are left, in order. */
    method Tick(now: int)
      requires Valid()
      modifies this`sessions, this`activeConnections, this`list, Nodes()`next, Nodes()`prev, Nodes()`closing
      ensures Valid() && Nodes() <= old(Nodes())
      ensures Entries() == Alive(old(Entries()), limits, now)
    {
      hide LinkAt, Distinct, IsExpired, Alive, Entries;
      AliveEnd(Entries(), limits, now);
      if sessions == null {
        assert Entries() == [] && Entries()[0..] == [];
        return;
      }
      if limits.handshake == 0 && limits.idle == 0 && limits.connect == 0 {
        AllAlive(Entries(), limits, now);
        return;
      }
      var session := sessions;
      ghost var kept := 0;
      assert Entries()[0..] == Entries();
      while session != null
        invariant Valid() && kept <= |list|
        invariant session == At(list, kept)
        invariant Nodes() <= old(Nodes())
        invariant Entries()[..kept] + Alive(Entries()[kept..], limits, now) == Alive(old(Entries()), limits, now)
        decreases |list| - kept
      {
        var next := Successor(session, kept);
        AliveStep(Entries(), kept, limits, now);
        if IsExpired(session.times, limits, now) {
          CloseSession(session, kept);
        } else {
          kept := kept + 1;
        }
        session := next;
      }
      AliveEnd(Entries(), limits, now);
    }

    /** A session that has its connection, and whose last activity is less than the idle limit ago,
        is still there after a tick, whenever it was created. */
    method TickKeepsBusy(n: Node, now: int)
      requires Valid() && n in list && n.times.handshakeDone && !n.times.connecting
      requires 1000 * (now - n.times.lastActivityAt) < limits.idle
      modifies this`sessions, this`activeConnections, this`list, Nodes()`next, Nodes()`prev, Nodes()`closing
      ensures Valid() && n in list
    {
      hide LinkAt, Distinct, IsExpired;
      var t := n.times;
      IdleExpiry(t.createdAt, t.lastActivityAt, t.connectStartedAt, limits, now);
      ghost var i :| 0 <= i < |list| && list[i] == n;
      assert Entries()[i] == Entry(n, t);
      ghost var kept := Alive(Entries(), limits, now);
      assert Entry(n, t) in kept;
      Tick(now);
      ghost var j :| 0 <= j < |kept| && kept[j] == Entry(n, t);
      assert Entries()[j] == Entry(n, t);
    }

    /** listener_callback: new sessions go to the front, and never above the limit. */
    method Accept(budget: nat, arrivals: seq<Arrival>) returns (ghost front: seq<Node>)
      requires Valid()
      modifies this`sessions, this`activeConnections, this`list, Nodes()`prev
      ensures Valid()
      ensures list == front + old(list) && fresh(set n | n in front)
      ensures Clocks() == Accepted(old(Clocks()), arrivals, budget, maxConnections)
    {
      hide LinkAt, Distinct, Accepted, NewTimes, Clocks;
      var accepted := 0;
      front := [];
      assert list == front + list;
      assert arrivals[0..] == arrivals;
      while accepted < budget
        invariant Valid() && accepted <= budget && accepted <= |arrivals|
        invariant list == front + old(list) && fresh(set n | n in front)
        invariant Accepted(Clocks(), arrivals[accepted..], budget - accepted, maxConnections)
               == Accepted(old(Clocks()), arrivals, budget, maxConnections)
      {
        AcceptedUnfold(Clocks(), arrivals, accepted, budget, maxConnections);
        if accepted == |arrivals| {
          return;
        }
        var arrival := arrivals[accepted];
        if !arrival.Client? {
          return;
        }
        if activeConnections >= maxConnections {
          accepted := accepted + 1;
          continue;
        }
        if !arrival.created {
          return;
        }
        var n := Enter(arrival.now);
        front := [n] + front;
        accepted := accepted + 1;
      }
      AcceptedUnfold(Clocks(), arrivals, accepted, budget, maxConnections);
    }

    /** session_create, as far as the list sees it. */
    method Enter(now: int) returns (n: Node)
      requires Valid() && |list| < maxConnections
      modifies this`sessions, this`activeConnections, this`list, Nodes()`prev
      ensures Valid() && list == [n] + old(list) && fresh(n)
      ensures Clocks() == [NewTimes(now)] + old(Clocks())
    {
      hide LinkAt, Distinct;
      ghost var before := Clocks();
      n := new Node(NewTimes(now));
      Link(n);
      assert Clocks() == [NewTimes(now)] + before;
    }

    /** Finds a session by its place in the list. */
    method Find(i: nat) returns (n: Node?)
      requires Valid()
      ensures n == At(list, i)
    {
      n := sessions;
      var k := 0;
      while n != null && k < i
        invariant k <= i && k <= |list| && n == At(list, k)
      {
        assert LinkAt(list, k);
        n := n.next;
        k := k + 1;
      }
    }

    /** Whatever a session does to its own clock fields. */
    method SetTimes(i: nat, times: Times)
      requires Valid()
      modifies Nodes()`times
      ensures Valid()
      ensures Clocks() == if i < |list| then old(Clocks())[i := times] else old(Clocks())
    {
      var n := Find(i);
      if n != null {
        n.times := times;
        forall j | 0 <= j < |list|
          ensures LinkAt(list, j)
        {
          assert old(LinkAt(list, j));
        }
      }
    }

    method CloseNth(i: nat)
      requires Valid()
      modifies this`sessions, this`activeConnections, this`list, Nodes()`next, Nodes()`prev, Nodes()`closing
      ensures Valid() && Nodes() <= old(Nodes())
      ensures Clocks() == if i < old(|list|) then old(Clocks())[..i] + old(Clocks())[i + 1..] else old(Clocks())
    {
      var n := Find(i);
      if n != null {
        CloseSession(n, i);
      }
    }

    method Perform(op: Op)
      requires Valid()
      modifies this`sessions, this`activeConnections, this`list, Nodes()
      ensures Valid() && fresh(Nodes() - old(Nodes()))
      ensures Clocks() == Apply(old(Clocks()), op, maxConnections, limits)
    {
      hide LinkAt, Distinct, Accepted, Alive, Unexpired;
      match op
      case AcceptSome(budget, arrivals) =>
        ghost var front := Accept(budget, arrivals);
      case TickAt(now) =>
        AliveClocks(Entries(), limits, now);
        Tick(now);
      case CloseAt(i) => CloseNth(i);
      case Touch(i, times) => SetTimes(i, times);
    }
  }

  // ---------------------------------------------------------------------
  // Whole runs
  // ---------------------------------------------------------------------

  /** Every run of accepts, ticks, closes and clock changes: the linked list is well formed,
      within the limit, and holds exactly the sessions that the operations on values give. */
  method RunServer(maxConnections: nat, limits: Timeouts, ops: seq<Op>) returns (server: Server)
    ensures fresh(server) && fresh(server.Nodes()) && server.Valid()
    ensures server.maxConnections == maxConnections && server.activeConnections == |server.list| <= maxConnections
    ensures server.Clocks() == ApplyAll(ops, maxConnections, limits)
  {
    hide LinkAt, Distinct, Apply;
    server := new Server(maxConnections, limits);
    assert ops[..0] == [];
    for k := 0 to |ops|
      invariant server.Valid() && fresh(server) && fresh(server.Nodes())
      invariant server.Clocks() == ApplyAll(ops[..k], maxConnections, limits)
    {
      assert ops[..k + 1][..k] == ops[..k];
      server.Perform(ops[k]);
    }
    assert ops[..|ops|] == ops;
  }

  /** However a run went, the shutdown loop ends, and the sessions that the run had left are closed. */
  method RunToShutdown(maxConnections: nat, limits: Timeouts, ops: seq<Op>)
    returns (server: Server, ghost left: seq<Entry>)
    ensures server.Valid() && server.list == [] && server.sessions == null && server.activeConnections == 0
    ensures ClocksOf(left) == ApplyAll(ops, maxConnections, limits)
    ensures forall e <- left :: e.node.closing == 2 && e.node.times == e.times
  {
    hide LinkAt, Distinct, ApplyAll;
    server := RunServer(maxConnections, limits, ops);
    left := server.Entries();
    server.Shutdown();
  }
}
