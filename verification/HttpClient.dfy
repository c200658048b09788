/**
 The synchronous client driver: the keep-alive pool, the one-descriptor event-loop
 registration and the retry and redirect loops.

 The operating system's side is part of the state: which descriptors are open, who
 holds each of them, and what the event loop watches. Descriptors are reused after a
 close. Network outcomes, clock readings and jitter are arbitrary.
 */
module HttpClients {
  import opened Text
  import opened RetryConfigs
  import opened HttpRequests
  import opened RetryRuns
  import opened ClientExchanges
  import opened RedirectChains
  import opened UrlParse
  import Http2 = Http2Engines

  type Key = string
  type Fd = int

  const INVALID: Fd := -1

  datatype Config = Config(
    keepAlive: bool,
    keepAliveTimeout: nat,
    maxIdleConnectionsPerHost: nat,
    followRedirects: bool,
    maxRedirects: nat,
    maxResponseBytes: nat,
    http2MaxStreams: nat,
    http2MaxConcurrent: nat,
    retry: RetryConfig)

  /** A live connection, as the client holds it. */
  datatype Conn = Conn(fd: Fd, idleSince: nat, reused: bool)

  type Pool = map<Key, seq<Conn>>

  /** Who holds an open socket: the running exchange, or a slot of a pool bucket. */
  datatype Place = Active | Pooled(key: Key, index: nat)

  /** An open socket: its serial number, the origin it was connected to, its holder. */
  datatype Socket = Socket(id: nat, origin: Key, place: Place)

  type Sockets = map<Fd, Socket>

  /** The descriptor of every socket ever opened, by serial number, and those closed again. */
  datatype Ledger = Ledger(fds: seq<Fd>, closed: set<nat>)

  // ------------------------------------------------------------------- invariants

  function Bucket(idle: Pool, key: Key): seq<Conn> { if key in idle then idle[key] else [] }

  /** The event loop watches exactly what the client remembers, and that is an open socket. */
  ghost predicate Coherent(loopFd: Fd, loopInterest: nat, registered: map<Fd, nat>, sockets: Sockets) {
    && registered == (if loopFd == INVALID then map[] else map[loopFd := loopInterest])
    && (loopFd != INVALID ==> loopFd in sockets)
  }

  /** Oldest first. */
  ghost predicate SortedByIdle(bucket: seq<Conn>, clock: nat) {
    && (forall i, j :: 0 <= i < j < |bucket| ==> bucket[i].idleSince <= bucket[j].idleSince)
    && (forall i :: 0 <= i < |bucket| ==> bucket[i].idleSince <= clock)
  }

  ghost predicate Ordered(idle: Pool, cap: nat, clock: nat) {
    forall k :: k in idle ==> |idle[k]| <= cap && SortedByIdle(idle[k], clock)
  }

  /** The socket of a pool slot says so, and was connected to the bucket's origin. */
  ghost predicate SlotLinked(c: Conn, sockets: Sockets, k: Key, i: nat) {
    c.fd in sockets && sockets[c.fd].place == Pooled(k, i) && sockets[c.fd].origin == k
  }

  /** Pool slots and the sockets that say they are pooled match one to one. */
  ghost predicate Linked(idle: Pool, sockets: Sockets) {
    && (forall k, i :: k in idle && 0 <= i < |idle[k]| ==> SlotLinked(idle[k][i], sockets, k, i))
    && (forall fd :: fd in sockets && sockets[fd].place.Pooled? ==>
          var p := sockets[fd].place;
          p.key in idle && p.index < |idle[p.key]| && idle[p.key][p.index].fd == fd)
  }

  /** Every socket ever opened is either open, under its own descriptor, or closed. */
  ghost predicate Balanced(sockets: Sockets, ledger: Ledger) {
    && (forall fd :: fd in sockets ==> fd >= 0 && OpenAs(sockets[fd].id, fd, ledger))
    && (forall id :: 0 <= id < |ledger.fds| && id !in ledger.closed ==>
          ledger.fds[id] in sockets && sockets[ledger.fds[id]].id == id)
    && (forall id :: id in ledger.closed ==> id < |ledger.fds|)
  }

  ghost predicate OpenAs(id: nat, fd: Fd, ledger: Ledger) {
    id < |ledger.fds| && ledger.fds[id] == fd && id !in ledger.closed
  }

  /** Nothing that was opened is still open. */
  ghost predicate AllClosed(ledger: Ledger) {
    forall id :: 0 <= id < |ledger.fds| ==> id in ledger.closed
  }

  /** Only `fd` is in the hands of an exchange; nothing is when `fd` is INVALID. */
  ghost predicate InUse(sockets: Sockets, fd: Fd) {
    && (fd != INVALID ==> fd in sockets && sockets[fd].place.Active?)
    && (forall f :: f in sockets && sockets[f].place.Active? ==> f == fd != INVALID)
  }

  function FdsOf(bucket: seq<Conn>): set<Fd> { set c | c in bucket :: c.fd }

  lemma NoFds()
    ensures FdsOf([]) == {}
  {
  }

  lemma FdsGrow(bucket: seq<Conn>, i: nat)
    requires i < |bucket|
    ensures FdsOf(bucket[i..]) == FdsOf(bucket[i + 1..]) + {bucket[i].fd}
  {
    assert bucket[i..] == [bucket[i]] + bucket[i + 1..];
  }

  predicate IdleTooLong(c: Conn, now: nat, timeout: nat) { now - c.idleSince > timeout }

  /** If the freshest connection of a bucket idled too long, all did. */
  lemma ExpiredBackMeansAll(bucket: seq<Conn>, now: nat, timeout: nat)
    requires bucket != [] && SortedByIdle(bucket, now) && IdleTooLong(bucket[|bucket| - 1], now, timeout)
    ensures forall i :: 0 <= i < |bucket| ==> IdleTooLong(bucket[i], now, timeout)
  {
    forall i | 0 <= i < |bucket| ensures IdleTooLong(bucket[i], now, timeout) {
      assert i < |bucket| - 1 ==> bucket[i].idleSince <= bucket[|bucket| - 1].idleSince;
    }
  }

  // ------------------------------------------------------ what each change preserves

  function Opened(sockets: Sockets, ledger: Ledger, fd: Fd, origin: Key): (r: (Sockets, Ledger)) {
    (sockets[fd := Socket(|ledger.fds|, origin, Active)], ledger.(fds := ledger.fds + [fd]))
  }

  function Closed(ledger: Ledger, s: Socket): Ledger { ledger.(closed := ledger.closed + {s.id}) }

  lemma OpenKeeps(idle: Pool, sockets: Sockets, ledger: Ledger, fd: Fd, origin: Key)
    requires Linked(idle, sockets) && Balanced(sockets, ledger) && InUse(sockets, INVALID) && fd >= 0 && fd !in sockets
    ensures var (s, l) := Opened(sockets, ledger, fd, origin);
            Linked(idle, s) && Balanced(s, l) && InUse(s, fd)
  {
    var (s, l) := Opened(sockets, ledger, fd, origin);
    assert forall k, i :: k in idle && 0 <= i < |idle[k]| ==> SlotLinked(idle[k][i], sockets, k, i);
  }

  lemma CloseKeeps(idle: Pool, sockets: Sockets, ledger: Ledger, fd: Fd)
    requires Linked(idle, sockets) && Balanced(sockets, ledger) && InUse(sockets, fd) && fd != INVALID
    ensures var s := sockets - {fd};
            Linked(idle, s) && Balanced(s, Closed(ledger, sockets[fd])) && InUse(s, INVALID)
  {
    var s, l := sockets - {fd}, Closed(ledger, sockets[fd]);
    assert forall k, i :: k in idle && 0 <= i < |idle[k]| ==> SlotLinked(idle[k][i], sockets, k, i);
    forall f | f in s ensures f >= 0 && OpenAs(s[f].id, f, l) {
      assert OpenAs(sockets[f].id, f, ledger) && OpenAs(sockets[fd].id, fd, ledger);
    }
  }

  /** Handing a socket to another holder. */
  function Moved(sockets: Sockets, fd: Fd, place: Place): Sockets
    requires fd in sockets
  {
    sockets[fd := sockets[fd].(place := place)]
  }

  lemma MoveKeeps(sockets: Sockets, ledger: Ledger, fd: Fd, place: Place)
    requires Balanced(sockets, ledger) && fd in sockets
    ensures Balanced(Moved(sockets, fd, place), ledger)
  {
    assert forall f :: f in sockets ==> OpenAs(sockets[f].id, f, ledger);
  }

  lemma LastSlot(idle: Pool, sockets: Sockets, key: Key)
    requires Linked(idle, sockets) && key in idle && idle[key] != []
    ensures var b := idle[key]; SlotLinked(b[|b| - 1], sockets, key, |b| - 1)
  {
  }

  /** Taking the freshest connection of a bucket into use. */
  lemma PopLinked(idle: Pool, sockets: Sockets, key: Key)
    requires Linked(idle, sockets) && InUse(sockets, INVALID)
    requires key in idle && idle[key] != [] && idle[key][|idle[key]| - 1].fd in sockets
    requires idle[key][|idle[key]| - 1].fd != INVALID
    ensures var b := idle[key];
            var fd := b[|b| - 1].fd;
            Linked(idle[key := b[..|b| - 1]], Moved(sockets, fd, Active)) && InUse(Moved(sockets, fd, Active), fd)
  {
    var b := idle[key];
    var fd := b[|b| - 1].fd;
    LastSlot(idle, sockets, key);
    var s, p := Moved(sockets, fd, Active), idle[key := b[..|b| - 1]];
    forall k, i | k in p && 0 <= i < |p[k]| ensures SlotLinked(p[k][i], s, k, i) {
      assert SlotLinked(idle[k][i], sockets, k, i);
    }
  }

  lemma PopOrdered(idle: Pool, key: Key, cap: nat, clock: nat)
    requires Ordered(idle, cap, clock) && key in idle && idle[key] != []
    ensures Ordered(idle[key := idle[key][..|idle[key]| - 1]], cap, clock)
  {
    assert SortedByIdle(idle[key], clock);
  }

  /** Returning the connection in use to its bucket. */
  lemma PushLinked(idle: Pool, sockets: Sockets, key: Key, c: Conn)
    requires Linked(idle, sockets) && InUse(sockets, c.fd) && c.fd != INVALID && sockets[c.fd].origin == key
    ensures var b := Bucket(idle, key);
            var s := Moved(sockets, c.fd, Pooled(key, |b|));
            Linked(idle[key := b + [c]], s) && InUse(s, INVALID)
  {
    var b := Bucket(idle, key);
    var s, p := Moved(sockets, c.fd, Pooled(key, |b|)), idle[key := b + [c]];
    forall k, i | k in p && 0 <= i < |p[k]| ensures SlotLinked(p[k][i], s, k, i) {
      if k != key || i < |b| {
        assert p[k][i] == idle[k][i] && SlotLinked(idle[k][i], sockets, k, i);
      }
    }
  }

  lemma PushOrdered(idle: Pool, key: Key, c: Conn, cap: nat, clock: nat)
    requires Ordered(idle, cap, clock) && c.idleSince == clock && |Bucket(idle, key)| < cap
    ensures Ordered(idle[key := Bucket(idle, key) + [c]], cap, clock)
  {
    assert SortedByIdle(Bucket(idle, key), clock);
  }

  lemma LaterOrdered(idle: Pool, cap: nat, clock: nat, later: nat)
    requires Ordered(idle, cap, clock) && clock <= later
    ensures Ordered(idle, cap, later)
  {
    forall k | k in idle ensures SortedByIdle(idle[k], later) { assert SortedByIdle(idle[k], clock); }
  }

  /** Slot `i` of bucket `k` holds the socket with serial number `id`. */
  ghost predicate HeldAt(idle: Pool, sockets: Sockets, k: Key, i: nat, id: nat) {
    k in idle && i < |idle[k]| && idle[k][i].fd in sockets && sockets[idle[k][i].fd].id == id
  }

  /**
   Conservation between exchanges: every socket ever opened is closed, or is held by exactly
   one slot of exactly one bucket, that of the origin it was connected to.
   */
  lemma ExactlyOnePlace(idle: Pool, sockets: Sockets, ledger: Ledger, id: nat)
    requires Linked(idle, sockets) && Balanced(sockets, ledger) && InUse(sockets, INVALID) && id < |ledger.fds|
    ensures id in ledger.closed <==> !exists k, i: nat :: HeldAt(idle, sockets, k, i, id)
    ensures forall k, i: nat, k', i': nat ::
              HeldAt(idle, sockets, k, i, id) && HeldAt(idle, sockets, k', i', id) ==> k == k' && i == i'
    ensures forall k, i: nat :: HeldAt(idle, sockets, k, i, id) ==> sockets[idle[k][i].fd].origin == k
  {
    forall k, i: nat | HeldAt(idle, sockets, k, i, id)
      ensures SlotLinked(idle[k][i], sockets, k, i) && OpenAs(id, idle[k][i].fd, ledger) {
    }
    if id !in ledger.closed {
      var fd := ledger.fds[id];
      var p := sockets[fd].place;
      assert p.Pooled?;
      assert HeldAt(idle, sockets, p.key, p.index, id);
    }
  }

  // ------------------------------------------------------------------- the client

  class HttpClient {
    const config: Config
    // the client's own fields
    var idle: Pool
    var loopFd: Fd
    var loopInterest: nat
    var engines: map<Fd, Http2.Http2ClientEngine>   // of the connections that speak HTTP/2
    // the operating system
    var registered: map<Fd, nat>
    var sockets: Sockets
    var ledger: Ledger
    var clock: nat
    // history
    ghost var trace: seq<Attempt>
    ghost var slept: int

    ghost predicate Valid()
      reads this`idle, this`loopFd, this`loopInterest, this`registered, this`sockets, this`ledger, this`clock
    {
      && Coherent(loopFd, loopInterest, registered, sockets)
      && Ordered(idle, config.maxIdleConnectionsPerHost, clock)
      && Linked(idle, sockets) && Balanced(sockets, ledger)
    }

    lemma PoolFits(key: Key)
      requires Valid()
      ensures |Bucket(idle, key)| <= config.maxIdleConnectionsPerHost
    {
    }

    /** Every connection that speaks HTTP/2 has an engine of its own, in order. */
    ghost predicate EnginesValid()
      reads this`engines, engines.Values
    {
      && (forall fd :: fd in engines ==> engines[fd].Valid())
      && (forall a, b :: a in engines && b in engines && a != b ==> engines[a] != engines[b])
    }

    /** The engine of a connection, if it has one. */
    ghost function EngineOf(fd: Fd): set<Http2.Http2ClientEngine>
      reads this`engines
    {
      if fd in engines then {engines[fd]} else {}
    }

    /** An HTTP/2 connection can take one more stream. */
    ghost predicate CanExchange(fd: Fd)
      reads this`engines, engines.Values
    {
      fd in engines ==> engines[fd].Reusable()
    }

    constructor (config: Config)
      ensures this.config == config && Valid() && InUse(sockets, INVALID) && EnginesValid()
      ensures idle == map[] && sockets == map[] && trace == [] && slept == 0
    {
      this.config := config;
      idle, loopFd, loopInterest, engines := map[], INVALID, 0, map[];
      registered, sockets, clock := map[], map[], 0;
      ledger, trace, slept := Ledger([], {}), [], 0;
    }

    /** A reading of the steady clock. */
    method Now() returns (now: nat)
      requires Valid()
      modifies this`clock
      ensures Valid() && now == clock >= old(clock)
    {
      hide Coherent, Ordered, Linked, Balanced;
      var reading: int := *;
      if reading > clock {
        LaterOrdered(idle, config.maxIdleConnectionsPerHost, clock, reading);
        clock := reading;
      }
      return clock;
    }

    // ----------------------------------------------------------- event loop

    /** Watch `fd`, with as few system calls as the remembered registration allows. */
    method ArmLoop(fd: Fd, interest: nat) returns (ok: bool)
      requires Valid() && fd in sockets && fd != INVALID
      modifies this`loopFd, this`loopInterest, this`registered
      ensures Valid()
      ensures ok ==> registered == map[fd := interest]
      ensures !ok ==> registered == old(registered) || registered == map[]
    {
      hide Ordered, Linked, Balanced;
      if loopFd == fd {
        if loopInterest == interest { return true; }
        var modified: bool := *;
        if !modified { return false; }
        registered := registered[fd := interest];
        loopInterest := interest;
        return true;
      }
      if loopFd != INVALID { registered := registered - {loopFd}; }
      var added: bool := *;
      if !added {
        loopFd, loopInterest := INVALID, 0;
        return false;
      }
      registered := registered[fd := interest];
      loopFd, loopInterest := fd, interest;
      return true;
    }

    method UnregisterIfCurrent(fd: Fd)
      requires Valid() && fd != INVALID
      modifies this`loopFd, this`loopInterest, this`registered
      ensures Valid() && loopFd == (if old(loopFd) == fd then INVALID else old(loopFd))
      ensures registered == old(registered) - {fd}
    {
      hide Ordered, Linked, Balanced;
      if fd == loopFd {
        registered := registered - {loopFd};
        loopFd, loopInterest := INVALID, 0;
      }
    }

    // --------------------------------------------------------------- sockets

    /** Close the socket in use; the event loop must have let go of it. */
    method CloseSocket(fd: Fd)
      requires Valid() && InUse(sockets, fd) && fd in sockets && fd != INVALID && loopFd != fd
      modifies this`sockets, this`ledger
      ensures Valid() && InUse(sockets, INVALID)
      ensures sockets == old(sockets) - {fd} && ledger == Closed(old(ledger), old(sockets)[fd])
    {
      hide Ordered, Linked, Balanced, InUse;
      CloseKeeps(idle, sockets, ledger, fd);
      ledger := Closed(ledger, sockets[fd]);
      sockets := sockets - {fd};
    }

    method DropConnection(conn: Conn)
      requires Valid() && InUse(sockets, conn.fd) && conn.fd in sockets && conn.fd != INVALID
      modifies this`sockets, this`ledger, this`loopFd, this`loopInterest, this`registered
      ensures Valid() && InUse(sockets, INVALID)
      ensures sockets == old(sockets) - {conn.fd} && ledger == Closed(old(ledger), old(sockets)[conn.fd])
    {
      hide Coherent, Ordered, Linked, Balanced, InUse;
      UnregisterIfCurrent(conn.fd);
      CloseSocket(conn.fd);
    }

    /** Take the freshest connection of a bucket out of it. */
    method PopBack(key: Key) returns (conn: Conn)
      requires Valid() && InUse(sockets, INVALID) && key in idle && idle[key] != []
      modifies this`idle, this`sockets
      ensures Valid() && InUse(sockets, conn.fd) && conn.fd >= 0 && conn.fd in sockets
      ensures conn == old(idle)[key][|old(idle)[key]| - 1] && sockets[conn.fd].origin == key
      ensures idle == old(idle)[key := old(idle)[key][..|old(idle)[key]| - 1]]
      ensures conn.fd in old(sockets) && sockets == Moved(old(sockets), conn.fd, Active)
    {
      hide Ordered, Linked, InUse;
      conn := idle[key][|idle[key]| - 1];
      LastSlot(idle, sockets, key);
      PopLinked(idle, sockets, key);
      PopOrdered(idle, key, config.maxIdleConnectionsPerHost, clock);
      MoveKeeps(sockets, ledger, conn.fd, Active);
      idle := idle[key := idle[key][..|idle[key]| - 1]];
      sockets := Moved(sockets, conn.fd, Active);
    }

    /** Close the freshest connection of a bucket, which the event loop does not watch. */
    method CloseBack(key: Key, ghost gone: set<Fd>, ghost before: Sockets)
      requires Valid() && InUse(sockets, INVALID) && key in idle && idle[key] != []
      requires idle[key][|idle[key]| - 1].fd != loopFd && sockets == before - gone
      modifies this`idle, this`sockets, this`ledger
      ensures Valid() && InUse(sockets, INVALID) && ledger.fds == old(ledger).fds
      ensures idle == old(idle)[key := old(idle)[key][..|old(idle)[key]| - 1]]
      ensures sockets == before - (gone + {old(idle)[key][|old(idle)[key]| - 1].fd})
      ensures old(ledger).closed <= ledger.closed
    {
      hide Coherent, Ordered, Balanced, InUse, Linked;
      var conn := PopBack(key);
      CloseSocket(conn.fd);
    }

    /** Forget a whole bucket: unregister every descriptor, then close them. */
    method DropIdleBucket(key: Key)
      requires Valid() && InUse(sockets, INVALID) && key in idle
      modifies this`idle, this`sockets, this`ledger, this`loopFd, this`loopInterest, this`registered
      ensures Valid() && InUse(sockets, INVALID)
      ensures idle == old(idle)[key := []] && ledger.fds == old(ledger).fds
      ensures sockets == old(sockets) - FdsOf(old(idle)[key]) && old(ledger).closed <= ledger.closed
    {
      hide Coherent, Ordered, Balanced, InUse, Linked, FdsOf;
      var bucket := idle[key];
      for i := 0 to |bucket|
        invariant Valid() && idle == old(idle) && bucket == idle[key]
        invariant sockets == old(sockets) && ledger == old(ledger)
        invariant loopFd != INVALID ==> forall j :: 0 <= j < i ==> bucket[j].fd != loopFd
      {
        SlotInRange(idle, sockets, ledger, key, i);
        UnregisterIfCurrent(bucket[i].fd);
      }
      assert idle[key := bucket[..|bucket|]] == idle by { assert bucket[..|bucket|] == bucket; }
      assert bucket[|bucket|..] == [];
      NoFds();
      for i := |bucket| downto 0
        invariant Valid() && InUse(sockets, INVALID)
        invariant idle == old(idle)[key := bucket[..i]] && ledger.fds == old(ledger).fds
        invariant sockets == old(sockets) - FdsOf(bucket[i..]) && old(ledger).closed <= ledger.closed
        invariant loopFd != INVALID ==> forall j :: 0 <= j < i ==> bucket[j].fd != loopFd
      {
        SlotInRange(idle, sockets, ledger, key, i);
        CloseBack(key, FdsOf(bucket[i + 1..]), old(sockets));
        assert bucket[..i + 1][..i] == bucket[..i];
        FdsGrow(bucket, i);
      }
    }

    method ClearIdleConnections()
      requires Valid() && InUse(sockets, INVALID)
      modifies this`idle, this`sockets, this`ledger, this`loopFd, this`loopInterest, this`registered
      ensures Valid() && idle == map[] && sockets == map[] && registered == map[]
      ensures ledger.fds == old(ledger).fds && AllClosed(ledger)
    {
      hide Coherent, Ordered, Balanced, InUse, Linked;
      var rest := idle.Keys;
      while rest != {}
        invariant Valid() && InUse(sockets, INVALID) && ledger.fds == old(ledger).fds
        invariant rest <= idle.Keys && forall k :: k in idle && k !in rest ==> idle[k] == []
      {
        var key :| key in rest;
        DropIdleBucket(key);
        rest := rest - {key};
      }
      NothingPooled(idle, sockets, ledger);
      LoopLetGo(loopFd, loopInterest, registered, sockets);
      EmptyOrdered(config.maxIdleConnectionsPerHost, clock);
      idle := map[];
    }

    // ------------------------------------------------------------------ pool

    /** Wait on a socket any number of times. */
    method WaitOn(fd: Fd)
      requires Valid() && fd in sockets && fd != INVALID
      modifies this`loopFd, this`loopInterest, this`registered
      ensures Valid()
    {
      var waits: int := *;
      while waits > 0
        invariant Valid()
      {
        var writing: bool := *;
        var ok := ArmLoop(fd, if writing then 4 else 1);
        waits := if ok then waits - 1 else 0;
      }
    }

    /** Connect to an origin, through the tunnel of a proxy or not. */
    method ConnectNew(key: Key) returns (ok: bool, conn: Conn)
      requires Valid() && InUse(sockets, INVALID)
      modifies this`sockets, this`ledger, this`loopFd, this`loopInterest, this`registered, this`engines
      ensures Valid() && InUse(sockets, if ok then conn.fd else INVALID)
      ensures engines == old(engines) || engines == old(engines) - {conn.fd}
      ensures ok ==> conn.fd !in engines
      ensures ok ==> !conn.reused && conn.fd >= 0 && conn.fd in sockets && sockets[conn.fd].origin == key
      ensures old(ledger).fds <= ledger.fds && |ledger.fds| <= |old(ledger).fds| + 1
      ensures ok ==> sockets[conn.fd].id == |old(ledger).fds|
    {
      hide Ordered, Balanced, InUse, Linked;
      var fd: int := *;
      conn := Conn(fd, 0, false);
      if fd < 0 || fd in sockets { return false, conn; }
      OpenKeeps(idle, sockets, ledger, fd, key);
      var (s, l) := Opened(sockets, ledger, fd, key);
      sockets, ledger := s, l;
      engines := engines - {fd};
      var tunnelled: bool := *;
      if tunnelled {
        WaitOn(fd);
        var accepted: bool := *;
        if !accepted {
          DropConnection(conn);
          return false, conn;
        }
      }
      return true, conn;
    }

    method AcquireConnection(key: Key) returns (ok: bool, conn: Conn, ghost foundStale: bool)
      requires Valid() && InUse(sockets, INVALID)
      modifies this`idle, this`sockets, this`ledger, this`loopFd, this`loopInterest, this`registered, this`clock,
               this`engines
      ensures engines == old(engines) || engines == old(engines) - {conn.fd}
      ensures ok ==> CanExchange(conn.fd) && (conn.fd in engines ==> conn.reused)
      ensures Valid() && InUse(sockets, if ok then conn.fd else INVALID)
      ensures ok ==> conn.fd >= 0 && conn.fd in sockets && sockets[conn.fd].origin == key
      ensures forall k :: k != key ==> Bucket(idle, k) == Bucket(old(idle), k)
      ensures |ledger.fds| <= |old(ledger).fds| + 1
      ensures var bucket, now := Bucket(old(idle), key), clock;
              if ok && conn.reused then
                && config.keepAlive && bucket != [] && Bucket(idle, key) == bucket[..|bucket| - 1]
                && conn == bucket[|bucket| - 1].(reused := true) && !foundStale
                && (config.keepAliveTimeout > 0 ==> now - conn.idleSince <= config.keepAliveTimeout)
                && ledger == old(ledger)
              else
                Bucket(idle, key) == (if config.keepAlive then [] else bucket)
    {
      hide Coherent, Ordered, Balanced, InUse, Linked;
      foundStale := false;
      if config.keepAlive {
        if key in idle && idle[key] != [] {
          var now := Now();
          if config.keepAliveTimeout > 0 && IdleTooLong(idle[key][|idle[key]| - 1], now, config.keepAliveTimeout) {
            DropIdleBucket(key);
          } else {
            conn := PopBack(key);
            var stale: bool := *;
            foundStale := stale;
            if !stale && (conn.fd in engines ==> engines[conn.fd].Reusable()) {
              return true, conn.(reused := true), foundStale;
            }
            DropConnection(conn);
            DropIdleBucket(key);
          }
        }
      }
      ok, conn := ConnectNew(key);
    }

    method ReleaseConnection(key: Key, conn: Conn)
      requires Valid() && InUse(sockets, conn.fd)
      requires conn.fd >= 0 && conn.fd in sockets && sockets[conn.fd].origin == key
      modifies this`idle, this`sockets, this`ledger, this`loopFd, this`loopInterest, this`registered, this`clock
      ensures Valid() && InUse(sockets, INVALID)
      ensures forall k :: k != key ==> Bucket(idle, k) == Bucket(old(idle), k)
      ensures var bucket := Bucket(old(idle), key);
              if |bucket| < config.maxIdleConnectionsPerHost then
                Bucket(idle, key) == bucket + [conn.(idleSince := clock)] && ledger == old(ledger)
              else
                Bucket(idle, key) == bucket && ledger == Closed(old(ledger), old(sockets)[conn.fd])
      ensures ledger.fds == old(ledger).fds
    {
      hide Coherent, Ordered, Balanced, InUse, Linked;
      if key !in idle {
        EmptyBucketAdded(idle, sockets, key, config.maxIdleConnectionsPerHost, clock);
        idle := idle[key := []];
      }
      if |idle[key]| >= config.maxIdleConnectionsPerHost {
        DropConnection(conn);
        return;
      }
      var now := Now();
      var stamped := conn.(idleSince := now);
      PushLinked(idle, sockets, key, stamped);
      PushOrdered(idle, key, stamped, config.maxIdleConnectionsPerHost, clock);
      MoveKeeps(sockets, ledger, conn.fd, Pooled(key, |idle[key]|));
      InUseIsOpen(loopFd, loopInterest, registered, sockets, conn.fd, Pooled(key, |idle[key]|));
      sockets := Moved(sockets, conn.fd, Pooled(key, |idle[key]|));
      idle := idle[key := idle[key] + [stamped]];
    }

    // ---------------------------------------------------------------- driver

    /**
     Finish the connect, choose the protocol of a new connection, and run the exchange over
     it. Network outcomes are arbitrary; the verdict on sending is the truth.
     */
    method Exchange(conn: Conn, out: Outgoing)
      returns (result: Exchanged, ghost trip: Trip)
      requires Valid() && conn.fd in sockets && conn.fd != INVALID && out.head != ""
      requires EnginesValid() && CanExchange(conn.fd) && (conn.fd in engines ==> conn.reused)
      modifies this`loopFd, this`loopInterest, this`registered, this`engines, EngineOf(conn.fd)
      ensures Valid() && EnginesValid() && fresh(engines.Values - old(engines.Values))
      ensures engines - {conn.fd} == old(engines) - {conn.fd}
      ensures BearsOut(trip, out, config.maxResponseBytes, result)
      ensures trip.http2 ==>
                && conn.fd in engines
                && engines[conn.fd].wire == old(if conn.fd in engines then engines[conn.fd].wire else "") + trip.wire
    {
      hide Coherent, Ordered, Balanced, Linked, Truthful, WiredAs, Says, Http2.Http2ClientEngine.Valid,
           Http2.Http2ClientEngine.Reusable;
      var limit := config.maxResponseBytes;
      ghost var wire, heard;
      WaitOn(conn.fd);
      var connected, negotiated: bool := *, *;
      ghost var overHttp2 := conn.fd in engines;
      if !connected {
        NothingSent(out, limit, overHttp2);
        return Broken(false), Trip("", overHttp2, Bytes("", false));
      }
      if conn.fd in engines {
        var engine, patience := engines[conn.fd], 0;
        patience :| patience >= 0;
        result, wire, heard := OverHttp2(engine, out, limit, patience);
      } else if !conn.reused && negotiated {
        var engine := new Http2.Http2ClientEngine(config.http2MaxStreams, config.http2MaxConcurrent);
        engines, overHttp2 := engines[conn.fd := engine], true;
        var patience := 0;
        patience :| patience >= 0;
        result, wire, heard := OverHttp2(engine, out, limit, patience);
      } else {
        var incoming: string, wakeUps := *, 0;
        wakeUps :| wakeUps >= 0;
        result, wire, heard := OverHttp11(out, limit, incoming, wakeUps);
      }
      trip := Trip(wire, overHttp2, heard);
    }

    /** The bucket of an origin with the connection put back, where there is room for it. */
    function PutBack(bucket: seq<Conn>, conn: Conn, now: nat): seq<Conn> {
      if |bucket| < config.maxIdleConnectionsPerHost then bucket + [conn.(idleSince := now)] else bucket
    }

    /** Hand the connection back when both sides allow it, close it otherwise. */
    method Retire(key: Key, conn: Conn, reusable: bool)
      requires Valid() && InUse(sockets, conn.fd)
      requires conn.fd >= 0 && conn.fd in sockets && sockets[conn.fd].origin == key
      modifies this`idle, this`sockets, this`ledger, this`loopFd, this`loopInterest, this`registered, this`clock
      ensures Valid() && InUse(sockets, INVALID)
      ensures forall k :: k != key ==> Bucket(idle, k) == Bucket(old(idle), k)
      ensures Bucket(idle, key) == if config.keepAlive && reusable then PutBack(Bucket(old(idle), key), conn, clock)
                                   else Bucket(old(idle), key)
      ensures ledger.fds == old(ledger).fds
    {
      if config.keepAlive && reusable {
        ReleaseConnection(key, conn);
      } else {
        DropConnection(conn);
      }
    }

    /** The delay before retry `used`, jitter included. */
    method ComputedBackoff(used: nat) returns (ms: int, ghost rnd01: real)
      ensures ms <= Positive(config.retry.maxDelay) && ms == Delay(config.retry, used, rnd01)
    {
      var unit: real := *;
      if config.retry.jitter <= 0.0 { unit := 0.0; }
      rnd01 := unit;
      ms := DelayFor(config.retry, used, unit);
    }

    /** No answer of a server makes the client sleep beyond its cap. */
    predicate SleepCapped() { !config.retry.honorRetryAfter || -1000 < config.retry.maxDelay <= INT64_MAX }

    /** A delta-seconds Retry-After replaces the computed delay. */
    function HonorRetryAfter(reply: Reply, delay: int): (ms: int)
      ensures SleepCapped() && delay <= Positive(config.retry.maxDelay) ==> ms <= Positive(config.retry.maxDelay)
      ensures var after := ParseRetryAfter(reply.retryAfter, config.retry.maxDelay);
              if config.retry.honorRetryAfter && after >= 0 then ms == after else ms == delay
    {
      var after := ParseRetryAfter(reply.retryAfter, config.retry.maxDelay);
      if config.retry.honorRetryAfter && after >= 0 then after else delay
    }

    /** Sleep before the next try; a delay that is not positive is no sleep. */
    method SleepBackoff(ms: int)
      modifies this`slept
      ensures slept == old(slept) + Positive(ms)
    {
      if ms > 0 { slept := slept + ms; }
    }

    /** What becomes of the connection and of the request after an exchange. */
    method Judge(key: Key, conn: Conn, m: Method, used: nat, computed: int, exchanged: Exchanged, ghost trip: Trip)
      returns (ghost a: Attempt, move: Move, delay: int, result: Option<Reply>)
      requires Valid() && InUse(sockets, conn.fd)
      requires conn.fd >= 0 && conn.fd in sockets && sockets[conn.fd].origin == key
      requires Truthful(exchanged, trip.wire) && computed <= Positive(config.retry.maxDelay)
      modifies this`idle, this`sockets, this`ledger, this`loopFd, this`loopInterest, this`registered, this`clock
      ensures Valid() && InUse(sockets, INVALID) && ledger.fds == old(ledger).fds
      ensures forall k :: k != key ==> Bucket(idle, k) == Bucket(old(idle), k)
      ensures move == MoveAfter(config.retry, m, used, a) && Honest(a)
      ensures !a.ConnectFailed? && a.wire == trip.wire && a.via == Via(old(sockets)[conn.fd].origin, trip.http2)
      ensures match exchanged
              case Answered(reply, keepAlive) =>
                && a.Completed? && a.reply == reply && a.keepAlive == keepAlive && a.heard == trip.heard
                && result == Some(reply)
              case Broken(_) => a.Failed? && result == None
      ensures Bucket(idle, key) == if a.Completed? && a.keepAlive && config.keepAlive
                                   then PutBack(Bucket(old(idle), key), conn, clock) else Bucket(old(idle), key)
      ensures move == FreeRetry ==> conn.reused && a.Failed?
      ensures SleepCapped() ==> delay <= Positive(config.retry.maxDelay)
      ensures delay == if a.Completed? && move == Backoff then HonorRetryAfter(a.reply, computed) else computed
    {
      hide Valid, InUse, Bucket, MoveAfter, HonorRetryAfter, SleepCapped, PutBack;
      ghost var via := Via(sockets[conn.fd].origin, trip.http2);
      delay := computed;
      match exchanged
      case Answered(reply, keepAlive) =>
        a, result := Completed(reply, keepAlive, trip.heard, trip.wire, via), Some(reply);
        Retire(key, conn, keepAlive);
        move, delay := JudgeAnswer(reply, m, used, computed, a);
      case Broken(requestSent) =>
        a, result := Failed(conn.reused, requestSent, trip.wire, via), None;
        DropConnection(conn);
        move := JudgeFailure(conn, m, used, requestSent, a);
    }

    /** Whether to try again after an answer, and when. */
    method JudgeAnswer(reply: Reply, m: Method, used: nat, computed: int, ghost a: Attempt)
      returns (move: Move, delay: int)
      requires a.Completed? && a.reply == reply && computed <= Positive(config.retry.maxDelay)
      ensures move == MoveAfter(config.retry, m, used, a) && move != FreeRetry
      ensures delay == if move == Backoff then HonorRetryAfter(reply, computed) else computed
      ensures SleepCapped() ==> delay <= Positive(config.retry.maxDelay)
    {
      hide IsIdempotent, HonorRetryAfter, SleepCapped;
      if used + 1 < config.retry.Attempts() && reply.status in config.retry.retryStatuses {
        return Backoff, HonorRetryAfter(reply, computed);
      }
      return Stop, computed;
    }

    /** Whether to try again after a failure. */
    method JudgeFailure(conn: Conn, m: Method, used: nat, requestSent: bool, ghost a: Attempt) returns (move: Move)
      requires a.Failed? && a.reused == conn.reused && a.sent == requestSent
      ensures move == MoveAfter(config.retry, m, used, a) && (move == FreeRetry ==> conn.reused)
    {
      hide IsIdempotent;
      var retry := config.retry;
      var canBackoff := used + 1 < retry.Attempts();
      if conn.reused && !requestSent {
        move := FreeRetry;
      } else {
        var safeToRetry := !requestSent || (retry.retryIdempotentAfterSend && IsIdempotent(m));
        move := if canBackoff && safeToRetry then Backoff else Stop;
      }
    }

    /** The delay is that of the backoff for some jitter, or what an honoured Retry-After of the reply says. */
    ghost predicate Due(a: Attempt, move: Move, used: nat, delay: int) {
      exists computed, rnd01 :: DueFor(a, move, used, delay, computed, rnd01)
    }

    ghost predicate DueFor(a: Attempt, move: Move, used: nat, delay: int, computed: int, rnd01: real) {
      && computed == Delay(config.retry, used, rnd01)
      && delay == if a.Completed? && move == Backoff then HonorRetryAfter(a.reply, computed) else computed
    }

    lemma DueAs(a: Attempt, move: Move, used: nat, computed: int, delay: int, rnd01: real)
      requires computed == Delay(config.retry, used, rnd01)
      requires delay == if a.Completed? && move == Backoff then HonorRetryAfter(a.reply, computed) else computed
      ensures Due(a, move, used, delay)
    {
      hide Delay, HonorRetryAfter;
      assert DueFor(a, move, used, delay, computed, rnd01);
    }

    /** One attempt, and what the policy makes of it once `used` backoff slots are gone. */
    method TryOnce(key: Key, out: Outgoing, used: nat)
      returns (ghost a: Attempt, move: Move, delay: int, result: Option<Reply>)
      requires Valid() && InUse(sockets, INVALID) && EnginesValid() && out.head != ""
      modifies this`idle, this`sockets, this`ledger, this`loopFd, this`loopInterest, this`registered, this`clock,
               this`engines, engines.Values
      ensures Valid() && InUse(sockets, INVALID) && EnginesValid() && fresh(engines.Values - old(engines.Values))
      ensures forall k :: k != key ==> Bucket(idle, k) == Bucket(old(idle), k)
      ensures move == MoveAfter(config.retry, out.m, used, a) && Honest(a)
      ensures Carried(key, out, config.maxResponseBytes, a)
      ensures move == FreeRetry ==> |Bucket(idle, key)| < |Bucket(old(idle), key)|
      ensures !(config.keepAlive && a.Completed? && a.keepAlive) ==> Bucket(idle, key) <= Bucket(old(idle), key)
      ensures SleepCapped() ==> delay <= Positive(config.retry.maxDelay)
      ensures Due(a, move, used, delay)
      ensures if result.Some? then a.Completed? && a.reply == result.value else !a.Completed?
      ensures |ledger.fds| <= |old(ledger).fds| + 1
    {
      hide Valid, InUse, Bucket, SleepCapped, Truthful, IsIdempotent, WiredAs, Says, Due, Delay, HonorRetryAfter,
           PutBack, Http2.Http2ClientEngine.Valid, Http2.Http2ClientEngine.Reusable;
      ghost var rnd01;
      delay, rnd01 := ComputedBackoff(used);
      ghost var computed := delay;
      var acquired, conn;
      ghost var foundStale;
      acquired, conn, foundStale := AcquireConnection(key);
      if !acquired {
        move := if used + 1 < config.retry.Attempts() then Backoff else Stop;
        DueAs(ConnectFailed, move, used, computed, delay, rnd01);
        return ConnectFailed, move, delay, None;
      }
      var exchanged;
      ghost var trip;
      exchanged, trip := Exchange(conn, out);
      a, move, delay, result := Judge(key, conn, out.m, used, delay, exchanged, trip);
      DueAs(a, move, used, computed, delay, rnd01);
    }

    /** Most attempts one exchange can make, and most it can sleep. */
    function AttemptLimit(): nat { config.retry.Attempts() * (config.maxIdleConnectionsPerHost + 1) }

    function SleepLimit(): nat { (config.retry.Attempts() - 1) * Positive(config.retry.maxDelay) }

    /** One round of the retry loop: an attempt, and the sleep after it if there is one. */
    method Advance(key: Key, out: Outgoing, attempt: nat, ghost before: seq<Attempt>, ghost run: seq<Attempt>,
                   ghost awake: int)
      returns (move: Move, result: Option<Reply>, ghost run': seq<Attempt>)
      requires Valid() && InUse(sockets, INVALID) && EnginesValid() && out.head != ""
      requires trace == before + run && AllCarried(key, out, config.maxResponseBytes, run)
      requires Running(key, out.m, run, attempt, slept - awake)
      modifies this, engines.Values
      ensures Valid() && InUse(sockets, INVALID) && EnginesValid() && fresh(engines.Values - old(engines.Values))
      ensures forall k :: k != key ==> Bucket(idle, k) == Bucket(old(idle), k)
      ensures trace == before + run' && AllCarried(key, out, config.maxResponseBytes, run')
      ensures match move
              case FreeRetry =>
                Running(key, out.m, run', attempt, slept - awake) && |Bucket(idle, key)| < |Bucket(old(idle), key)|
              case Backoff =>
                attempt + 1 < config.retry.Attempts() && Running(key, out.m, run', attempt + 1, slept - awake)
              case Stop => Finished(out.m, run', slept - awake, result)
    {
      hide Valid, EnginesValid, InUse, WholeRun, AllHonest, MoveAfter, Bucket, Honest, SleepCapped, Underway,
           AllCarried, Carried;
      ghost var pooled := |Bucket(idle, key)|;
      ghost var a;
      var delay;
      a, move, delay, result := TryOnce(key, out, attempt);
      PoolFits(key);
      UnderwayGoesOn(config.retry, out.m, run, attempt, pooled, config.maxIdleConnectionsPerHost + 1, slept - awake,
                     SleepCapped(), a, |Bucket(idle, key)|, delay);
      CarriedOn(key, out, config.maxResponseBytes, run, a);
      run' := run + [a];
      trace := trace + [a];
      if move == Backoff { SleepBackoff(delay); }
    }

    /** Between two attempts of an exchange. */
    ghost predicate Running(key: Key, m: Method, run: seq<Attempt>, attempt: nat, asleep: int)
      reads this`idle
    {
      Underway(config.retry, m, run, attempt, |Bucket(idle, key)|, config.maxIdleConnectionsPerHost + 1, asleep,
               SleepCapped())
    }

    /** After the last: a whole run within its limits, ended by the answer if there is one. */
    ghost predicate Finished(m: Method, run: seq<Attempt>, asleep: int, result: Option<Reply>) {
      && WholeRun(config.retry, m, run) && AllHonest(run) && |run| <= AttemptLimit()
      && 0 <= asleep && (SleepCapped() ==> asleep <= SleepLimit())
      && var last := run[|run| - 1];
         if result.Some? then last.Completed? && last.reply == result.value else !last.Completed?
    }

    /**
     One exchange with its retries. The attempts it adds to the trace are a whole run of
     the retry policy, truthful about the wire, each to this origin and of this request; their
     number is bounded, and so is the time slept where Retry-After is capped; no connection is
     left in use.
     */
    method PerformExchange(key: Key, out: Outgoing) returns (result: Option<Reply>)
      requires Valid() && InUse(sockets, INVALID) && EnginesValid() && out.head != ""
      modifies this, engines.Values
      ensures Valid() && InUse(sockets, INVALID) && EnginesValid() && fresh(engines.Values - old(engines.Values))
      ensures forall k :: k != key ==> Bucket(idle, k) == Bucket(old(idle), k)
      ensures old(trace) < trace && WholeRun(config.retry, out.m, trace[|old(trace)|..])
      ensures AllHonest(trace[|old(trace)|..]) && AllCarried(key, out, config.maxResponseBytes, trace[|old(trace)|..])
      ensures |trace| - |old(trace)| <= AttemptLimit()
      ensures 0 <= slept - old(slept) && (SleepCapped() ==> slept - old(slept) <= SleepLimit())
      ensures var last := trace[|trace| - 1];
              if result.Some? then last.Completed? && last.reply == result.value else !last.Completed?
    {
      hide Valid, EnginesValid, InUse, AllHonest, Bucket, SleepCapped, Running, AllCarried, MoveAfter,
           AttemptLimit, SleepLimit;
      var attempt: nat := 0;
      ghost var run: seq<Attempt> := [];
      NoneCarried(key, out, config.maxResponseBytes);
      RunningStarts(key, out.m);
      while true
        invariant Valid() && InUse(sockets, INVALID) && EnginesValid() && fresh(engines.Values - old(engines.Values))
        invariant forall k :: k != key ==> Bucket(idle, k) == Bucket(old(idle), k)
        invariant trace == old(trace) + run && attempt < config.retry.Attempts()
        invariant AllCarried(key, out, config.maxResponseBytes, run)
        invariant Running(key, out.m, run, attempt, slept - old(slept))
        decreases config.retry.Attempts() - attempt, |Bucket(idle, key)|
      {
        var move;
        move, result, run := Advance(key, out, attempt, old(trace), run, old(slept));
        match move
        case FreeRetry =>
        case Backoff => attempt := attempt + 1;
        case Stop =>
          assert trace[|old(trace)|..] == run;
          return;
      }
    }

    lemma RunningStarts(key: Key, m: Method)
      requires Valid()
      ensures Running(key, m, [], 0, 0)
    {
      hide Valid, Underway;
      PoolFits(key);
      UnderwayStarts(config.retry, m, |Bucket(idle, key)|, config.maxIdleConnectionsPerHost + 1, SleepCapped());
    }

    /** The next exchange of a redirect chain. */
    method Submit(req: HttpRequest, ghost ps: seq<Pending>, p: Pending, ghost statuses: seq<nat>,
                  ghost locations: seq<string>, ghost runs: seq<seq<Attempt>>)
      returns (result: Option<Reply>, ghost run: seq<Attempt>)
      requires Valid() && InUse(sockets, INVALID) && EnginesValid()
      requires OnTheWay(config.retry, config.maxResponseBytes, ps, statuses, locations, runs)
      requires |runs| == |statuses| == |ps| - 1 && Proper(p) && ps[|statuses|] == p && req.Holds(p.r)
      modifies this, engines.Values
      ensures Valid() && InUse(sockets, INVALID) && EnginesValid() && fresh(engines.Values - old(engines.Values))
      ensures trace == old(trace) + run && Joined(runs + [run]) == Joined(runs) + run
      ensures OnTheWay(config.retry, config.maxResponseBytes, ps, statuses, locations, runs + [run]) && run != []
      ensures if result.Some? then EndsWith(run, result.value) else !run[|run| - 1].Completed?
      ensures |run| <= AttemptLimit() && (SleepCapped() ==> slept - old(slept) <= SleepLimit())
    {
      hide Valid, EnginesValid, InUse, WholeRun, OnTheWay, Joined, AttemptLimit, SleepLimit, AllHonest, SleepCapped,
           AllCarried, HeadText, OriginKey, HttpRequest.Holds;
      var key, head, body := req.Views(p.r);
      result := PerformExchange(key, Outgoing(p.r.m, head, body + p.outside, p.fromFile, p.trailers));
      run := trace[|old(trace)|..];
      assert trace == old(trace) + run;
      Submitted(config.retry, config.maxResponseBytes, ps, statuses, locations, runs, run);
    }

    /**
     A request with its redirects. The requests of the chain, the redirects between them and
     the run of each are handed out as witnesses: every attempt of a run went to the origin of
     its own request's URL, and that URL is where the Location of the answer before led.
     */
    method RequestUncached(req: HttpRequest, first: Pending)
      returns (ending: Ending, ghost ps: seq<Pending>, ghost statuses: seq<nat>, ghost locations: seq<string>,
               ghost runs: seq<seq<Attempt>>)
      requires Valid() && InUse(sockets, INVALID) && EnginesValid() && Proper(first) && req.Holds(first.r)
      modifies this, engines.Values, req
      ensures Valid() && InUse(sockets, INVALID) && EnginesValid()
      ensures OnTheWay(config.retry, config.maxResponseBytes, ps, statuses, locations, runs)
      ensures |runs| == |ps| > 0 && ps[0] == first
      ensures trace == old(trace) + Joined(runs)
      ensures |statuses| <= RedirectLimit(config)
      ensures EndingMeans(config, ps, statuses, runs, ending)
      ensures |trace| - |old(trace)| <= Copies(|runs|, AttemptLimit())
      ensures SleepCapped() ==> slept - old(slept) <= Copies(|runs|, SleepLimit())
    {
      hide Valid, EnginesValid, InUse, Copies, OnTheWay, Joined, EndsWith, EndsIn, EndsAt, IsRedirect, Proper,
           FateMeans, AttemptLimit, SleepLimit, SleepCapped, HttpRequest.Holds;
      var redirectsLeft := config.maxRedirects;
      var p := first;
      ps, statuses, locations, runs := [first], [], [], [];
      CopiesGrow(0, AttemptLimit());
      CopiesGrow(0, SleepLimit());
      SetsOut(config.retry, config.maxResponseBytes, first);
      while true
        invariant Valid() && InUse(sockets, INVALID) && EnginesValid() && fresh(engines.Values - old(engines.Values))
        invariant OnTheWay(config.retry, config.maxResponseBytes, ps, statuses, locations, runs)
        invariant |runs| == |statuses| == |ps| - 1 && ps[0] == first && ps[|statuses|] == p
        invariant Proper(p) && req.Holds(p.r)
        invariant trace == old(trace) + Joined(runs)
        invariant |statuses| + redirectsLeft == config.maxRedirects && (statuses != [] ==> config.followRedirects)
        invariant |trace| - |old(trace)| <= Copies(|runs|, AttemptLimit())
        invariant SleepCapped() ==> slept - old(slept) <= Copies(|runs|, SleepLimit())
        decreases redirectsLeft
      {
        ghost var run;
        var result;
        result, run := Submit(req, ps, p, statuses, locations, runs);
        CopiesGrow(|runs|, AttemptLimit());
        CopiesGrow(|runs|, SleepLimit());
        runs := runs + [run];
        if result.None? { return NoReply, ps, statuses, locations, runs; }
        var reply := result.value;
        ending := Replied(reply);
        RepliesAt(run, reply);
        if !config.followRedirects || !IsRedirect(reply.status) || redirectsLeft == 0 { return; }
        if reply.location == "" { return; }
        var fate := FollowRedirect(req, p, reply.status, reply.location);
        if !fate.Led? { return Stopped(reply, fate), ps, statuses, locations, runs; }
        Redirected(config.retry, config.maxResponseBytes, ps, statuses, locations, runs, fate.next, reply.status,
                   reply.location);
        p := fate.next;
        redirectsLeft := redirectsLeft - 1;
        ps, statuses, locations := ps + [p], statuses + [reply.status], locations + [reply.location];
      }
    }
  }

  lemma RepliesAt(run: seq<Attempt>, reply: Reply)
    requires EndsWith(run, reply)
    ensures EndsAt(run, reply.status, reply.location)
    ensures IsRedirect(reply.status) <==> reply.status in [301, 302, 303, 307, 308]
  {
  }

  /** How a request ends: with an answer, without one, or with an answer whose redirect leads nowhere. */
  datatype Ending = Replied(reply: Reply) | NoReply | Stopped(reply: Reply, fate: Fate)

  function RedirectLimit(c: Config): nat { if c.followRedirects then c.maxRedirects else 0 }

  ghost predicate EndingMeans(c: Config, ps: seq<Pending>, statuses: seq<nat>, runs: seq<seq<Attempt>>, ending: Ending)
    requires |runs| == |ps| == |statuses| + 1
  {
    var p, run := ps[|statuses|], runs[|statuses|];
    match ending
    case NoReply => run != [] && !run[|run| - 1].Completed?
    case Replied(reply) =>
      && EndsWith(run, reply)
      && (reply.status in [301, 302, 303, 307, 308] ==> |statuses| == RedirectLimit(c) || reply.location == "")
    case Stopped(reply, fate) =>
      && EndsWith(run, reply) && reply.status in [301, 302, 303, 307, 308] && |statuses| < RedirectLimit(c)
      && reply.location != "" && !fate.Led? && Proper(p) && FateMeans(p, reply.status, reply.location, fate)
  }

  /** `n` times `x`, kept apart from the solver's arithmetic. */
  function Copies(n: nat, x: nat): nat { n * x }

  lemma CopiesGrow(n: nat, x: nat)
    ensures Copies(n + 1, x) == Copies(n, x) + x && Copies(0, x) == 0
  {
  }

  lemma CopiesBound(n: nat, m: nat, x: nat)
    requires n <= m
    ensures Copies(n, x) <= Copies(m, x) == m * x
  {
    assert (m - n) * x >= 0;
  }

  /**
   The retry loop between two attempts: `attempt` backoff slots used, `pooled` connections
   left to reuse, and both attempts and sleep within what those account for.
   */
  ghost predicate Underway(c: RetryConfig, m: Method, run: seq<Attempt>, attempt: nat, pooled: nat, width: nat,
                           slept: int, capped: bool) {
    && Retried(c, m, run) && Used(c, m, run) == attempt < c.Attempts() && AllHonest(run)
    && |run| + pooled <= Copies(attempt, width) + width - 1
    && 0 <= slept && (capped ==> slept <= Copies(attempt, Positive(c.maxDelay)))
  }

  lemma UnderwayStarts(c: RetryConfig, m: Method, pooled: nat, width: nat, capped: bool)
    requires pooled < width
    ensures Underway(c, m, [], 0, pooled, width, 0, capped)
  {
    hide Copies;
    RunStarts(c, m);
    CopiesGrow(0, width);
    CopiesGrow(0, Positive(c.maxDelay));
  }

  /** One more attempt, whichever way it goes. */
  lemma UnderwayGoesOn(c: RetryConfig, m: Method, run: seq<Attempt>, attempt: nat, pooled: nat, width: nat,
                       slept: int, capped: bool, a: Attempt, pooled': nat, delay: int)
    requires Underway(c, m, run, attempt, pooled, width, slept, capped) && Honest(a) && pooled' < width
    requires capped ==> delay <= Positive(c.maxDelay)
    ensures match MoveAfter(c, m, attempt, a)
            case FreeRetry => pooled' < pooled ==> Underway(c, m, run + [a], attempt, pooled', width, slept, capped)
            case Backoff =>
              && attempt + 1 < c.Attempts()
              && Underway(c, m, run + [a], attempt + 1, pooled', width, slept + Positive(delay), capped)
            case Stop =>
              && WholeRun(c, m, run + [a]) && AllHonest(run + [a])
              && |run| + 1 <= c.Attempts() * width
              && 0 <= slept && (capped ==> slept <= (c.Attempts() - 1) * Positive(c.maxDelay))
  {
    hide Copies, MoveAfter, Retried, Used, WholeRun, Honest;
    RunGrows(c, m, run, a);
    CopiesGrow(attempt, width);
    CopiesGrow(attempt, Positive(c.maxDelay));
    CopiesBound(attempt + 1, c.Attempts(), width);
    CopiesBound(attempt, c.Attempts() - 1, Positive(c.maxDelay));
  }

  lemma RunStarts(c: RetryConfig, m: Method)
    ensures Retried(c, m, []) && Used(c, m, []) == 0
  {
  }

  lemma RunGrows(c: RetryConfig, m: Method, run: seq<Attempt>, a: Attempt)
    requires Retried(c, m, run)
    ensures var move := MoveAfter(c, m, Used(c, m, run), a);
            && (move != Stop ==> Retried(c, m, run + [a]))
            && (move == Stop ==> WholeRun(c, m, run + [a]))
            && Used(c, m, run + [a]) == Used(c, m, run) + (if move == Backoff then 1 else 0)
            && (move == Backoff ==> Used(c, m, run) + 1 < c.Attempts())
  {
    assert (run + [a])[..|run|] == run;
  }

  lemma EmptyBucketAdded(idle: Pool, sockets: Sockets, key: Key, cap: nat, clock: nat)
    requires Linked(idle, sockets) && Ordered(idle, cap, clock) && key !in idle
    ensures Linked(idle[key := []], sockets) && Ordered(idle[key := []], cap, clock)
  {
    assert forall k, i :: k in idle && 0 <= i < |idle[k]| ==> SlotLinked(idle[k][i], sockets, k, i);
  }

  lemma InUseIsOpen(loopFd: Fd, loopInterest: nat, registered: map<Fd, nat>, sockets: Sockets, fd: Fd, place: Place)
    requires Coherent(loopFd, loopInterest, registered, sockets) && fd in sockets
    ensures Coherent(loopFd, loopInterest, registered, Moved(sockets, fd, place))
  {
  }

  lemma NothingPooled(idle: Pool, sockets: Sockets, ledger: Ledger)
    requires Linked(idle, sockets) && Balanced(sockets, ledger) && InUse(sockets, INVALID)
    requires forall k :: k in idle ==> idle[k] == []
    ensures sockets == map[] && Linked(map[], sockets) && AllClosed(ledger)
  {
    forall fd: Fd ensures fd !in sockets {
      if fd in sockets { assert false; }
    }
    assert sockets.Keys == {};
    assert forall id :: 0 <= id < |ledger.fds| && id !in ledger.closed ==> ledger.fds[id] in sockets;
  }

  lemma EmptyOrdered(cap: nat, clock: nat)
    ensures Ordered(map[], cap, clock)
  {
  }

  lemma LoopLetGo(loopFd: Fd, loopInterest: nat, registered: map<Fd, nat>, sockets: Sockets)
    requires Coherent(loopFd, loopInterest, registered, sockets) && sockets == map[]
    ensures registered == map[]
  {
  }

  lemma SlotInRange(idle: Pool, sockets: Sockets, ledger: Ledger, key: Key, i: nat)
    requires Linked(idle, sockets) && Balanced(sockets, ledger) && key in idle && i < |idle[key]|
    ensures idle[key][i].fd in sockets && idle[key][i].fd >= 0
  {
    assert SlotLinked(idle[key][i], sockets, key, i);
  }
}
