/** Who owns each tunnel address, across the allocator and the connections of `session.rs` and
    `main.rs`, the session registry, the packet forwarder and the reaper. */
module Addresses {
  import opened Prelude

  const FIRST: nat := 2
  const LIMIT: nat := 254
  const LINGER: nat := 120_000

  // ---------------------------------------------------------------- allocator

  /** Host octets from `next` on were never handed out; those freed are reused last in, first out. */
  datatype Pool = Pool(next: nat, freed: seq<nat>)

  const FULL: Pool := Pool(FIRST, [])

  function Take(p: Pool): (Pool, Option<nat>) {
    if p.freed != [] then (p.(freed := p.freed[..|p.freed| - 1]), Some(p.freed[|p.freed| - 1]))
    else if p.next >= LIMIT then (p, None)
    else (p.(next := p.next + 1), Some(p.next))
  }

  function Return(p: Pool, host: nat): Pool {
    if host < FIRST || host >= LIMIT || host in p.freed then p else p.(freed := p.freed + [host])
  }

  class IpAllocator {
    const base: U32
    var next: nat
    var freed: seq<nat>

    ghost predicate Valid()
      reads this
    {
      base % 0x100 == 0 && next <= LIMIT && forall i :: 0 <= i < |freed| ==> freed[i] < LIMIT
    }

    ghost function Model(): Pool
      reads this
    {
      Pool(next, freed)
    }

    constructor (baseIp: U32)
      ensures Valid() && Model() == FULL && base == baseIp - baseIp % 0x100
    {
      base, next, freed := baseIp - baseIp % 0x100, FIRST, [];
    }

    method Allocate() returns (ip: Option<U32>)
      requires Valid()
      modifies this
      ensures Valid()
      ensures var (after, host) := Take(old(Model()));
        Model() == after && ip == match host case None => None case Some(h) => Some(base + h)
      ensures old(freed) != [] ==>
        var last := |old(freed)| - 1;
        ip == Some(base + old(freed)[last]) && freed == old(freed)[..last] && next == old(next)
      ensures old(freed) == [] && old(next) < 254 ==>
        ip == Some(base + old(next)) && freed == [] && next == old(next) + 1
      ensures old(freed) == [] && old(next) >= 254 ==> ip == None && freed == [] && next == old(next)
    {
      var host: nat;
      if freed != [] {
        host := freed[|freed| - 1];
        freed := freed[..|freed| - 1];
      } else {
        if next >= LIMIT { return None; }
        host := next;
        next := next + 1;
      }
      return Some(base + host);
    }

    method Release(ip: U32)
      requires Valid()
      modifies this
      ensures Valid() && Model() == Return(old(Model()), ip % 0x100)
      ensures next == old(next)
      ensures freed == if 2 <= ip % 0x100 <= 253 && ip % 0x100 !in old(freed) then old(freed) + [ip % 0x100]
                       else old(freed)
    {
      var host := ip % 0x100;
      if host < FIRST || host >= LIMIT { return; }
      if host !in freed { freed := freed + [host]; }
    }
  }

  // --------------------------------------------------------------- the server

  type Conn = nat
  type Sid = nat

  /** An entry's address. The serial number tells entries apart, as the identity of a shared object
      does in the source: an identifier may come back, an entry does not. */
  datatype Lease = Lease(serial: nat, host: nat)

  /** What a connection holds on to: an entry of the registry, or one that was. */
  datatype Claim = Claim(sid: Sid, lease: Lease)

  datatype Place = Fresh | Freed | Reserved(conn: Conn) | Owned(sid: Sid) | Reclaiming

  datatype Server = Server(
    pool: Pool,
    reserved: map<Conn, nat>,  // connections that still hold the address reserved for them
    announced: set<Conn>,      // of these, the ones whose address the forwarder already knows
    entries: map<Sid, Lease>,  // the registry
    serial: nat,               // the serial number of the next entry
    holding: map<Conn, Claim>, // connections that have an entry in hand and are yet to attach to it
    live: map<Conn, Claim>,    // connections attached to an entry: their writers have its replies
    reading: map<Conn, Claim>, // connections whose read loops run, attached still or not any more
    reclaiming: seq<nat>,      // addresses the reaper has taken out of the registry
    cleared: bool,             // whether the first of them is unregistered already
    queues: set<nat>)          // addresses the forwarder holds a queue for

  const BOOT: Server := Server(FULL, map[], {}, map[], 0, map[], map[], map[], [], false, {})

  datatype Step =
    | Accept(conn: Conn)
    | Announce(conn: Conn)             // the handshake succeeded: `register_client`
    | Enter(conn: Conn, sid: Sid)      // `registry.insert`: the address is taken
    | Lookup(conn: Conn, sid: Sid)     // a resuming connection takes the entry from the registry
    | Attach(conn: Conn)               // replay over, it claims the entry, evicting any other
    | Detach(conn: Conn)               // its writer is over; it may go on reading
    | Hangup(conn: Conn)               // its read loop is over, and ends its writer
    | GiveBack(conn: Conn)             // it ends without having taken its address, or in an error
    | DropQueue(host: nat)             // the dispatcher found the receiver gone
    | Reap(sids: seq<Sid>)             // `reap_expired`: sessions that nothing is attached to
    | Unregister                       // the reaper drops the queue of its first address
    | Reclaim                          // and then returns the address to the pool

  predicate Distinct<T(==)>(s: seq<T>) { forall i, j :: 0 <= i < j < |s| ==> s[i] != s[j] }

  predicate Attached(s: Server, sid: Sid)
    requires sid in s.entries
  {
    exists c :: c in s.live && s.live[c] == Claim(sid, s.entries[sid])
  }

  /** The entry is still the one the registry has under its identifier. */
  predicate Registered(s: Server, claim: Claim) { claim.sid in s.entries && s.entries[claim.sid] == claim.lease }

  predicate Can(s: Server, e: Step) {
    match e
    case Accept(c) => c !in s.reserved && c !in s.holding && c !in s.reading
    case Announce(c) => c in s.reserved && c !in s.announced && c !in s.holding && c !in s.reading
    case Enter(c, sid) => c in s.announced && c in s.reserved && sid !in s.entries
    case Lookup(c, sid) =>
      sid in s.entries && c in s.reserved && c !in s.announced && c !in s.holding && c !in s.reading
    case Attach(c) => c in s.holding
    case Detach(c) => c in s.live
    case Hangup(c) => c in s.reading
    case GiveBack(c) => c in s.reserved && c !in s.announced && c !in s.reading
    case DropQueue(_) => true
    case Reap(sids) =>
      s.reclaiming == [] && Distinct(sids)
      && forall i :: 0 <= i < |sids| ==> sids[i] in s.entries && !Attached(s, sids[i])
    case Unregister => s.reclaiming != [] && !s.cleared
    case Reclaim => s.reclaiming != [] && s.cleared
  }

  function HostsOf(entries: map<Sid, Lease>, sids: seq<Sid>): (r: seq<nat>)
    requires forall i :: 0 <= i < |sids| ==> sids[i] in entries
    ensures |r| == |sids| && forall i :: 0 <= i < |sids| ==> r[i] == entries[sids[i]].host
  {
    seq(|sids|, i requires 0 <= i < |sids| => entries[sids[i]].host)
  }

  function Entered(s: Server, c: Conn, sid: Sid): Server
    requires c in s.reserved
  {
    var lease := Lease(s.serial, s.reserved[c]);
    s.(reserved := s.reserved - {c}, announced := s.announced - {c}, entries := s.entries[sid := lease],
       serial := s.serial + 1, holding := s.holding[c := Claim(sid, lease)])
  }

  /** Whoever else is attached to the same entry is evicted. */
  function Attaching(s: Server, c: Conn): map<Conn, Claim>
    requires c in s.holding
  {
    (map x | x in s.live && s.live[x] != s.holding[c] :: s.live[x])[c := s.holding[c]]
  }

  function Do(s: Server, e: Step): Server
    requires Can(s, e)
  {
    match e
    case Accept(c) =>
      var (pool, host) := Take(s.pool);
      if host.None? then s else s.(pool := pool, reserved := s.reserved[c := host.value])
    case Announce(c) => s.(announced := s.announced + {c}, queues := s.queues + {s.reserved[c]})
    case Enter(c, sid) => Entered(s, c, sid)
    case Lookup(c, sid) => s.(holding := s.holding[c := Claim(sid, s.entries[sid])])
    case Attach(c) =>
      s.(live := Attaching(s, c), reading := s.reading[c := s.holding[c]], holding := s.holding - {c})
    case Detach(c) => s.(live := s.live - {c})
    case Hangup(c) => s.(live := s.live - {c}, reading := s.reading - {c})
    case GiveBack(c) =>
      s.(pool := Return(s.pool, s.reserved[c]), reserved := s.reserved - {c}, holding := s.holding - {c})
    case DropQueue(h) => s.(queues := s.queues - {h})
    case Reap(sids) =>
      s.(entries := s.entries - (set i | 0 <= i < |sids| :: sids[i]), reclaiming := HostsOf(s.entries, sids),
         cleared := false)
    case Unregister => s.(queues := s.queues - {s.reclaiming[0]}, cleared := true)
    case Reclaim => s.(pool := Return(s.pool, s.reclaiming[0]), reclaiming := s.reclaiming[1..], cleared := false)
  }

  predicate IsHost(h: nat) { FIRST <= h < LIMIT }

  /** Every place that holds an address. */
  ghost predicate Holds(s: Server, h: nat, p: Place) {
    match p
    case Fresh => h >= s.pool.next
    case Freed => h in s.pool.freed
    case Reserved(c) => c in s.reserved && s.reserved[c] == h
    case Owned(sid) => sid in s.entries && s.entries[sid].host == h
    case Reclaiming => h in s.reclaiming
  }

  ghost predicate OneHolder(s: Server, h: nat) {
    exists p :: Holds(s, h, p) && forall q :: Holds(s, h, q) ==> q == p
  }

  // -------------------------------------------------------------- invariant

  ghost predicate InRange(s: Server) {
    && FIRST <= s.pool.next <= LIMIT
    && (forall i :: 0 <= i < |s.pool.freed| ==> IsHost(s.pool.freed[i]))
    && (forall c :: c in s.reserved ==> IsHost(s.reserved[c]))
    && (forall k :: k in s.entries ==> IsHost(s.entries[k].host))
    && (forall i :: 0 <= i < |s.reclaiming| ==> IsHost(s.reclaiming[i]))
    && Distinct(s.pool.freed) && Distinct(s.reclaiming)
  }

  /** `place` says where each address is. */
  ghost predicate Placed(s: Server, place: map<nat, Place>) {
    && (forall h :: IsHost(h) ==> h in place)
    && (forall h, p :: IsHost(h) ==> (Holds(s, h, p) <==> place[h] == p))
  }

  /** A place where an address may have a queue: neither the pool nor a connection that has not yet
      announced it. */
  ghost predicate MayHaveQueue(s: Server, p: Place) {
    p.Owned? || p.Reclaiming? || (p.Reserved? && p.conn in s.announced)
  }

  /** A queue belongs to an address in use, and is gone before the address is free. */
  ghost predicate QueuesHeld(s: Server, place: map<nat, Place>)
    requires Placed(s, place)
  {
    && (forall h :: h in s.queues ==> IsHost(h) && MayHaveQueue(s, place[h]))
    && (s.cleared ==> s.reclaiming != [] && s.reclaiming[0] !in s.queues)
  }

  ghost predicate Attachments(s: Server) {
    && s.announced <= s.reserved.Keys
    && s.holding.Keys !! s.announced && s.reading.Keys !! s.announced && s.holding.Keys !! s.reading.Keys
    && (forall c :: c in s.live ==> c in s.reading && s.reading[c] == s.live[c])
    && (forall c, d :: c in s.live && d in s.live && s.live[c] == s.live[d] ==> c == d)
    && (forall k :: k in s.entries ==> s.entries[k].serial < s.serial)
    && (forall c :: c in s.holding ==> s.holding[c].lease.serial < s.serial)
    && (forall c :: c in s.reading ==> s.reading[c].lease.serial < s.serial)
  }

  ghost predicate Housed(s: Server, place: map<nat, Place>) { InRange(s) && Placed(s, place) && QueuesHeld(s, place) }

  ghost predicate Inv(s: Server, place: map<nat, Place>) { Housed(s, place) && Attachments(s) }

  /** How a step moves addresses. */
  ghost function Moved(s: Server, place: map<nat, Place>, e: Step): map<nat, Place>
    requires Can(s, e) && Inv(s, place)
  {
    match e
    case Accept(c) => (match Take(s.pool).1 case None => place case Some(h) => place[h := Reserved(c)])
    case Enter(c, sid) => place[s.reserved[c] := Owned(sid)]
    case GiveBack(c) => place[s.reserved[c] := Freed]
    case Reap(sids) => Reaped(place, sids)
    case Reclaim => place[s.reclaiming[0] := Freed]
    case _ => place
  }

  lemma InSnoc<T>(s: seq<T>, x: T)
    ensures forall y :: y in s + [x] <==> y in s || y == x
    ensures Distinct(s) && x !in s ==> Distinct(s + [x])
  {
  }

  lemma InFront<T>(s: seq<T>)
    requires s != [] && Distinct(s)
    ensures var n := |s| - 1;
      Distinct(s[..n]) && s[n] in s && forall y :: y in s[..n] <==> y in s && y != s[n]
  {
    InSnoc(s[..|s| - 1], s[|s| - 1]);
    assert s == s[..|s| - 1] + [s[|s| - 1]];
  }

  lemma InTail<T>(s: seq<T>)
    requires s != [] && Distinct(s)
    ensures Distinct(s[1..]) && s[0] in s && forall y :: y in s[1..] <==> y in s && y != s[0]
  {
    assert s == [s[0]] + s[1..];
  }

  /** One address moves to one new place and everything else stays put. */
  lemma MoveOne(s: Server, t: Server, place: map<nat, Place>, x: nat, to: Place)
    requires Placed(s, place) && IsHost(x)
    requires forall h, p :: IsHost(h) ==> (Holds(t, h, p) <==> if h == x then p == to else Holds(s, h, p))
    ensures Placed(t, place[x := to])
  {
  }

  lemma StayPut(s: Server, t: Server, place: map<nat, Place>)
    requires Placed(s, place)
    requires t.pool == s.pool && t.reserved == s.reserved && t.entries == s.entries && t.reclaiming == s.reclaiming
    ensures Placed(t, place)
  {
    forall h, p | IsHost(h) ensures Holds(t, h, p) <==> place[h] == p { assert Holds(t, h, p) <==> Holds(s, h, p); }
  }

  /** A pool in good order: freed addresses are distinct and were handed out before. */
  ghost predicate Orderly(p: Pool) {
    FIRST <= p.next <= LIMIT && Distinct(p.freed) && forall i :: 0 <= i < |p.freed| ==> FIRST <= p.freed[i] < p.next
  }

  /** What `allocate` takes out of the pool, and what it leaves there. */
  lemma TakeFacts(p: Pool)
    requires Orderly(p)
    ensures var (after, host) := Take(p);
      && Orderly(after) && (host.None? ==> after == p)
      && (host.Some? ==> IsHost(host.value))
      && (host.Some? ==> forall h :: h in after.freed <==> h in p.freed && h != host.value)
      && (host.Some? ==> if host.value in p.freed then after.next == p.next
                         else host.value == p.next && after.next == p.next + 1)
  {
    if p.freed != [] { InFront(p.freed); }
  }

  /** Nothing freed was never handed out. */
  lemma FreedBelow(s: Server, place: map<nat, Place>, i: nat)
    requires Housed(s, place) && i < |s.pool.freed|
    ensures FIRST <= s.pool.freed[i] < s.pool.next
  {
    var h := s.pool.freed[i];
    assert Holds(s, h, Freed);
    assert Holds(s, h, Fresh) <==> place[h] == Fresh;
  }

  lemma AcceptFacts(s: Server, place: map<nat, Place>)
    requires Housed(s, place)
    ensures Orderly(s.pool)
    ensures Take(s.pool).1.Some? ==>
      var x := Take(s.pool).1.value; IsHost(x) && (place[x] == Fresh || place[x] == Freed)
  {
    forall i | 0 <= i < |s.pool.freed| ensures FIRST <= s.pool.freed[i] < s.pool.next { FreedBelow(s, place, i); }
    TakeFacts(s.pool);
    if Take(s.pool).1.Some? {
      var x := Take(s.pool).1.value;
      assert Holds(s, x, if x in s.pool.freed then Freed else Fresh);
    }
  }

  lemma AcceptMoves(s: Server, place: map<nat, Place>, c: Conn, x: nat)
    requires Housed(s, place) && Can(s, Accept(c)) && Take(s.pool).1 == Some(x) && IsHost(x)
    ensures Placed(Do(s, Accept(c)), place[x := Reserved(c)])
  {
    var t := Do(s, Accept(c));
    AcceptFacts(s, place);
    TakeFacts(s.pool);
    forall h, p | IsHost(h) ensures Holds(t, h, p) <==> if h == x then p == Reserved(c) else Holds(s, h, p) {
      assert Holds(s, x, p) <==> place[x] == p;
    }
    MoveOne(s, t, place, x, Reserved(c));
  }

  lemma AcceptKeeps(s: Server, place: map<nat, Place>, e: Step)
    requires Inv(s, place) && Can(s, e) && e.Accept?
    ensures Housed(Do(s, e), Moved(s, place, e))
  {
    AcceptFacts(s, place);
    TakeFacts(s.pool);
    if Take(s.pool).1.Some? {
      var x := Take(s.pool).1.value;
      AcceptMoves(s, place, e.conn, x);
      assert x !in s.queues;
    }
  }

  lemma AnnounceKeeps(s: Server, place: map<nat, Place>, e: Step)
    requires Inv(s, place) && Can(s, e) && e.Announce?
    ensures Housed(Do(s, e), Moved(s, place, e))
  {
    StayPut(s, Do(s, e), place);
    assert Holds(s, s.reserved[e.conn], Reserved(e.conn));
    if s.cleared { assert Holds(s, s.reclaiming[0], Reclaiming); }
  }

  lemma EnterMoves(s: Server, place: map<nat, Place>, c: Conn, sid: Sid)
    requires Housed(s, place) && Can(s, Enter(c, sid))
    ensures place[s.reserved[c]] == Reserved(c)
    ensures Placed(Do(s, Enter(c, sid)), place[s.reserved[c] := Owned(sid)])
  {
    var t, x := Do(s, Enter(c, sid)), s.reserved[c];
    assert Holds(s, x, Reserved(c));
    forall h, p | IsHost(h) ensures Holds(t, h, p) <==> if h == x then p == Owned(sid) else Holds(s, h, p) {
      assert Holds(s, x, p) <==> place[x] == p;
    }
    MoveOne(s, t, place, x, Owned(sid));
  }

  lemma EnterKeeps(s: Server, place: map<nat, Place>, e: Step)
    requires Inv(s, place) && Can(s, e) && e.Enter?
    ensures Housed(Do(s, e), Moved(s, place, e))
  {
    var t, x := Do(s, e), s.reserved[e.conn];
    EnterMoves(s, place, e.conn, e.sid);
    forall h | h in t.queues && h != x ensures IsHost(h) && MayHaveQueue(t, place[h]) {
      assert MayHaveQueue(s, place[h]) && Holds(s, h, place[h]);
    }
    if s.cleared { assert t.reclaiming[0] !in t.queues; }
  }

  lemma GiveBackMoves(s: Server, place: map<nat, Place>, c: Conn)
    requires Housed(s, place) && Can(s, GiveBack(c))
    ensures place[s.reserved[c]] == Reserved(c) && Distinct(Return(s.pool, s.reserved[c]).freed)
    ensures Placed(Do(s, GiveBack(c)), place[s.reserved[c] := Freed])
  {
    var t, x := Do(s, GiveBack(c)), s.reserved[c];
    assert Holds(s, x, Reserved(c)) && !Holds(s, x, Freed);
    InSnoc(s.pool.freed, x);
    forall h, p | IsHost(h) ensures Holds(t, h, p) <==> if h == x then p == Freed else Holds(s, h, p) {
      assert Holds(s, x, p) <==> place[x] == p;
    }
    MoveOne(s, t, place, x, Freed);
  }

  lemma GiveBackKeeps(s: Server, place: map<nat, Place>, e: Step)
    requires Inv(s, place) && Can(s, e) && e.GiveBack?
    ensures Housed(Do(s, e), Moved(s, place, e))
  {
    GiveBackMoves(s, place, e.conn);
    assert s.reserved[e.conn] !in s.queues;
  }

  lemma ReclaimMoves(s: Server, place: map<nat, Place>)
    requires Housed(s, place) && Can(s, Reclaim)
    ensures place[s.reclaiming[0]] == Reclaiming && IsHost(s.reclaiming[0])
    ensures Distinct(Return(s.pool, s.reclaiming[0]).freed) && Distinct(s.reclaiming[1..])
    ensures Placed(Do(s, Reclaim), place[s.reclaiming[0] := Freed])
  {
    var t, x := Do(s, Reclaim), s.reclaiming[0];
    assert Holds(s, x, Reclaiming) && !Holds(s, x, Freed);
    InSnoc(s.pool.freed, x);
    InTail(s.reclaiming);
    forall h, p | IsHost(h) ensures Holds(t, h, p) <==> if h == x then p == Freed else Holds(s, h, p) {
      assert Holds(s, x, p) <==> place[x] == p;
    }
    MoveOne(s, t, place, x, Freed);
  }

  lemma ReclaimKeeps(s: Server, place: map<nat, Place>, e: Step)
    requires Inv(s, place) && Can(s, e) && e.Reclaim?
    ensures Housed(Do(s, e), Moved(s, place, e))
  {
    ReclaimMoves(s, place);
  }

  lemma ReapedHosts(s: Server, place: map<nat, Place>, sids: seq<Sid>)
    requires Housed(s, place) && Can(s, Reap(sids))
    ensures Distinct(HostsOf(s.entries, sids))
    ensures forall h :: h in HostsOf(s.entries, sids) <==> IsHost(h) && place[h].Owned? && place[h].sid in sids
  {
    var hosts := HostsOf(s.entries, sids);
    forall i | 0 <= i < |sids| ensures IsHost(hosts[i]) && place[hosts[i]] == Owned(sids[i]) {
      assert Holds(s, hosts[i], Owned(sids[i]));
    }
    forall h | IsHost(h) && place[h].Owned? && place[h].sid in sids ensures h in hosts {
      assert Holds(s, h, place[h]);
      var i :| 0 <= i < |sids| && sids[i] == place[h].sid;
      assert hosts[i] == h;
    }
  }

  lemma ReapKeepsOthers(s: Server, sids: seq<Sid>)
    requires Can(s, Reap(sids))
    ensures forall k :: k in Do(s, Reap(sids)).entries <==> k in s.entries && k !in sids
    ensures forall k :: k in Do(s, Reap(sids)).entries ==> Do(s, Reap(sids)).entries[k] == s.entries[k]
  {
  }

  /** Where the addresses are once the sessions `sids` are out of the registry. */
  function Reaped(place: map<nat, Place>, sids: seq<Sid>): map<nat, Place> {
    map h | h in place :: if place[h].Owned? && place[h].sid in sids then Reclaiming else place[h]
  }

  lemma ReapMoves(s: Server, place: map<nat, Place>, sids: seq<Sid>)
    requires Housed(s, place) && Can(s, Reap(sids))
    ensures Placed(Do(s, Reap(sids)), Reaped(place, sids))
  {
    var t, moved := Do(s, Reap(sids)), Reaped(place, sids);
    ReapedHosts(s, place, sids);
    forall h, p | IsHost(h) ensures Holds(t, h, p) <==> moved[h] == p {
      ReapMovesOne(s, place, sids, h, p);
    }
  }

  lemma ReapMovesOne(s: Server, place: map<nat, Place>, sids: seq<Sid>, h: nat, p: Place)
    requires Housed(s, place) && Can(s, Reap(sids)) && IsHost(h)
    requires h in HostsOf(s.entries, sids) <==> place[h].Owned? && place[h].sid in sids
    ensures Holds(Do(s, Reap(sids)), h, p) <==> Reaped(place, sids)[h] == p
  {
    ReapKeepsOthers(s, sids);
    assert Holds(s, h, p) <==> place[h] == p;
    if place[h].Owned? { assert Holds(s, h, place[h]); }
  }

  lemma ReapKeeps(s: Server, place: map<nat, Place>, e: Step)
    requires Inv(s, place) && Can(s, e) && e.Reap?
    ensures Housed(Do(s, e), Moved(s, place, e))
  {
    ReapedHosts(s, place, e.sids);
    ReapKeepsOthers(s, e.sids);
    ReapMoves(s, place, e.sids);
  }

  /** Steps that move no address. */
  lemma OthersKeep(s: Server, place: map<nat, Place>, e: Step)
    requires Inv(s, place) && Can(s, e)
    requires e.Lookup? || e.Attach? || e.Detach? || e.Hangup? || e.DropQueue? || e.Unregister?
    ensures Housed(Do(s, e), Moved(s, place, e))
  {
    StayPut(s, Do(s, e), place);
    if e.Unregister? { assert Holds(s, s.reclaiming[0], Reclaiming); }
  }

  lemma AttachKeeps(s: Server, c: Conn)
    requires Attachments(s) && Can(s, Attach(c))
    ensures Attachments(Do(s, Attach(c)))
  {
  }

  lemma EndKeeps(s: Server, e: Step)
    requires Attachments(s) && Can(s, e) && (e.Detach? || e.Hangup?)
    ensures Attachments(Do(s, e))
  {
  }

  lemma HoldKeeps(s: Server, e: Step)
    requires Attachments(s) && Can(s, e) && (e.Enter? || e.Lookup?)
    ensures Attachments(Do(s, e))
  {
  }

  lemma ReserveKeeps(s: Server, e: Step)
    requires Attachments(s) && Can(s, e) && (e.Accept? || e.Announce? || e.GiveBack?)
    ensures Attachments(Do(s, e))
  {
  }

  lemma AttachmentsKept(s: Server, e: Step)
    requires Attachments(s) && Can(s, e)
    ensures Attachments(Do(s, e))
  {
    if e.Attach? {
      AttachKeeps(s, e.conn);
    } else if e.Detach? || e.Hangup? {
      EndKeeps(s, e);
    } else if e.Enter? || e.Lookup? {
      HoldKeeps(s, e);
    } else if e.Accept? || e.Announce? || e.GiveBack? {
      ReserveKeeps(s, e);
    } else if e.Reap? {
      ReapKeepsOthers(s, e.sids);
    }
  }

  /** Every step keeps every part of the invariant. */
  lemma StepInv(s: Server, place: map<nat, Place>, e: Step)
    requires Inv(s, place) && Can(s, e)
    ensures Inv(Do(s, e), Moved(s, place, e))
  {
    AttachmentsKept(s, e);
    if e.Accept? { AcceptKeeps(s, place, e); }
    else if e.Announce? { AnnounceKeeps(s, place, e); }
    else if e.Enter? { EnterKeeps(s, place, e); }
    else if e.GiveBack? { GiveBackKeeps(s, place, e); }
    else if e.Reap? { ReapKeeps(s, place, e); }
    else if e.Reclaim? { ReclaimKeeps(s, place, e); }
    else { OthersKeep(s, place, e); }
  }

  // ------------------------------------------------------------------- runs

  predicate Run(s: Server, es: seq<Step>)
    decreases |es|
  {
    es == [] || (Can(s, es[0]) && Run(Do(s, es[0]), es[1..]))
  }

  function After(s: Server, es: seq<Step>): Server
    requires Run(s, es)
    decreases |es|
  {
    if es == [] then s else After(Do(s, es[0]), es[1..])
  }

  lemma {:induction false} RunInv(s: Server, place: map<nat, Place>, es: seq<Step>) returns (last: map<nat, Place>)
    requires Inv(s, place) && Run(s, es)
    ensures Inv(After(s, es), last)
    decreases |es|
  {
    if es == [] {
      last := place;
    } else {
      StepInv(s, place, es[0]);
      last := RunInv(Do(s, es[0]), Moved(s, place, es[0]), es[1..]);
    }
  }

  lemma AllFresh(s: Server, place: map<nat, Place>)
    requires s == BOOT && forall h :: IsHost(h) ==> h in place && place[h] == Fresh
    ensures Placed(s, place)
  {
    forall h, p | IsHost(h) ensures Holds(s, h, p) <==> place[h] == p {
      assert place[h] == Fresh;
    }
  }

  lemma Booted(es: seq<Step>) returns (place: map<nat, Place>)
    requires Run(BOOT, es)
    ensures Inv(After(BOOT, es), place)
  {
    var start := map h: nat | h < LIMIT && IsHost(h) :: Fresh;
    AllFresh(BOOT, start);
    place := RunInv(BOOT, start, es);
  }

  /** Conservation under every interleaving: each of the 252 addresses is always in exactly one place:
      never handed out, freed, reserved by one connection, owned by one session, or being reclaimed. */
  lemma EachAddressInOnePlace(es: seq<Step>, h: nat)
    requires Run(BOOT, es) && IsHost(h)
    ensures OneHolder(After(BOOT, es), h)
  {
    var s := After(BOOT, es);
    var place := Booted(es);
    assert Holds(s, h, place[h]);
    forall q | Holds(s, h, q) ensures q == place[h] {}
  }

  /** So no address is held twice: not by two sessions, nor by two connections, nor by one of each. */
  lemma NoAddressTwice(es: seq<Step>)
    requires Run(BOOT, es)
    ensures var s := After(BOOT, es);
      && (forall k, l :: k in s.entries && l in s.entries && s.entries[k].host == s.entries[l].host ==> k == l)
      && (forall c, d :: c in s.reserved && d in s.reserved && s.reserved[c] == s.reserved[d] ==> c == d)
      && (forall c, k :: c in s.reserved && k in s.entries ==> s.reserved[c] != s.entries[k].host)
  {
    var s := After(BOOT, es);
    var place := Booted(es);
    forall k | k in s.entries ensures place[s.entries[k].host] == Owned(k) {
      assert Holds(s, s.entries[k].host, Owned(k));
    }
    forall c | c in s.reserved ensures place[s.reserved[c]] == Reserved(c) {
      assert Holds(s, s.reserved[c], Reserved(c));
    }
  }

  // ------------------------------------------------------ attached connections

  /** Every attached connection's address is owned by its session. */
  predicate LiveOwned(s: Server) { forall c :: c in s.live ==> Registered(s, s.live[c]) }

  ghost predicate AlwaysLiveOwned(s: Server, es: seq<Step>)
    requires Run(s, es)
    decreases |es|
  {
    LiveOwned(s) && (es == [] || AlwaysLiveOwned(Do(s, es[0]), es[1..]))
  }

  /** Every connection that attaches finds its session still registered. */
  predicate AttachesInTime(s: Server, es: seq<Step>)
    requires Run(s, es)
    decreases |es|
  {
    es == [] ||
    ((es[0].Attach? ==> Registered(s, s.holding[es[0].conn])) && AttachesInTime(Do(s, es[0]), es[1..]))
  }

  lemma LiveOwnedStep(s: Server, e: Step)
    requires LiveOwned(s) && Can(s, e)
    ensures LiveOwned(Do(s, e)) <==> (e.Attach? ==> Registered(s, s.holding[e.conn]))
  {
    var t := Do(s, e);
    if e.Attach? {
      assert t.live[e.conn] == s.holding[e.conn];
    } else if e.Reap? {
      forall c | c in t.live ensures Registered(t, t.live[c]) { assert Attached(s, s.live[c].sid); }
    }
  }

  /** Throughout a run every attached connection's address is owned by its session, if and only if
      every connection that attached found its session still registered. The reaper never takes a
      session away from an attached connection; what it can take away is one that a resuming
      connection has looked up but not yet attached to. */
  lemma {:induction false} LiveOwnedExactly(s: Server, es: seq<Step>)
    requires LiveOwned(s) && Run(s, es)
    ensures AlwaysLiveOwned(s, es) <==> AttachesInTime(s, es)
    decreases |es|
  {
    if es != [] {
      LiveOwnedStep(s, es[0]);
      if LiveOwned(Do(s, es[0])) { LiveOwnedExactly(Do(s, es[0]), es[1..]); }
    }
  }

  lemma {:induction false} LiveOwnedAtEnd(s: Server, es: seq<Step>)
    requires LiveOwned(s) && Run(s, es) && AttachesInTime(s, es)
    ensures LiveOwned(After(s, es))
    decreases |es|
  {
    if es != [] {
      LiveOwnedStep(s, es[0]);
      LiveOwnedAtEnd(Do(s, es[0]), es[1..]);
    }
  }

  /** And then no two of them ever share an address. */
  lemma LiveAddressesDistinct(es: seq<Step>)
    requires Run(BOOT, es) && AttachesInTime(BOOT, es)
    ensures var s := After(BOOT, es);
      && LiveOwned(s)
      && forall c, d :: c in s.live && d in s.live && s.live[c].lease.host == s.live[d].lease.host ==> c == d
  {
    LiveOwnedAtEnd(BOOT, es);
    NoAddressTwice(es);
    var place := Booted(es);
  }

  predicate Leads(s: Server, es: seq<Step>, t: Server) { Run(s, es) && After(s, es) == t }

  lemma Then(s: Server, e: Step, es: seq<Step>, t: Server)
    requires Can(s, e) && Leads(Do(s, e), es, t)
    ensures Leads(s, [e] + es, t)
    ensures AttachesInTime(Do(s, e), es) && (e.Attach? ==> Registered(s, s.holding[e.conn]))
            ==> AttachesInTime(s, [e] + es)
  {
    assert ([e] + es)[1..] == es;
  }

  lemma {:induction false} LeadsOn(s: Server, es: seq<Step>, t: Server, fs: seq<Step>, u: Server)
    requires Leads(s, es, t) && Leads(t, fs, u)
    ensures Leads(s, es + fs, u)
    ensures AttachesInTime(s, es) && AttachesInTime(t, fs) ==> AttachesInTime(s, es + fs)
    decreases |es|
  {
    if es == [] {
      assert es + fs == fs;
    } else {
      LeadsOn(Do(s, es[0]), es[1..], t, fs, u);
      assert es + fs == [es[0]] + (es[1..] + fs);
      Then(s, es[0], es[1..] + fs, u);
    }
  }

  /** Session 7 has been entered, its first connection has gone, and connection 1 holds its entry,
      about to replay. */
  const RESUMING: Server := Server(
    Pool(4, []), map[1 := 3], {}, map[7 := Lease(0, 2)], 1, map[1 := Claim(7, Lease(0, 2))], map[], map[],
    [], false, {2})

  /** The reaper has taken session 7 meanwhile and returned its address. */
  const RECLAIMED: Server := RESUMING.(pool := Pool(4, [2]), entries := map[], queues := {})

  /** The address has gone to session 8. */
  const REISSUED: Server := Server(
    Pool(4, []), map[1 := 3], {}, map[8 := Lease(1, 2)], 2,
    map[1 := Claim(7, Lease(0, 2)), 2 := Claim(8, Lease(1, 2))], map[], map[], [], false, {2})

  /** Both connections are attached, to different sessions, with the same address. */
  const SHARED: Server := REISSUED.(
    holding := map[], live := map[2 := Claim(8, Lease(1, 2)), 1 := Claim(7, Lease(0, 2))],
    reading := map[2 := Claim(8, Lease(1, 2)), 1 := Claim(7, Lease(0, 2))])

  /** Session 7 has been entered. */
  const ENTERED: Server := Server(
    Pool(3, []), map[], {}, map[7 := Lease(0, 2)], 1, map[0 := Claim(7, Lease(0, 2))], map[], map[],
    [], false, {2})

  lemma ToEntered()
    ensures Leads(BOOT, [Accept(0), Announce(0), Enter(0, 7)], ENTERED)
    ensures AttachesInTime(BOOT, [Accept(0), Announce(0), Enter(0, 7)])
  {
    var s1 := Do(BOOT, Accept(0));
    var s2 := Do(s1, Announce(0));
    assert Do(s2, Enter(0, 7)) == ENTERED;
    Then(s2, Enter(0, 7), [], ENTERED);
    Then(s1, Announce(0), [Enter(0, 7)], ENTERED);
    Then(BOOT, Accept(0), [Announce(0), Enter(0, 7)], ENTERED);
  }

  lemma ToResuming()
    ensures Leads(ENTERED, [Attach(0), Hangup(0), Accept(1), Lookup(1, 7)], RESUMING)
  {
    var s1 := Do(ENTERED, Attach(0));
    var s2 := Do(s1, Hangup(0));
    var s3 := Do(s2, Accept(1));
    assert Do(s3, Lookup(1, 7)) == RESUMING;
    Then(s3, Lookup(1, 7), [], RESUMING);
    Then(s2, Accept(1), [Lookup(1, 7)], RESUMING);
    Then(s1, Hangup(0), [Accept(1), Lookup(1, 7)], RESUMING);
    Then(ENTERED, Attach(0), [Hangup(0), Accept(1), Lookup(1, 7)], RESUMING);
  }

  lemma ReapSeven(s: Server)
    requires s.entries == map[7 := Lease(0, 2)] && s.live == map[] && s.reclaiming == [] && !s.cleared
    ensures Can(s, Reap([7])) && Do(s, Reap([7])) == s.(entries := map[], reclaiming := [2])
  {
    assert !Attached(s, 7);
    var sids: seq<Sid> := [7];
    var gone := set i | 0 <= i < |sids| :: sids[i];
    assert sids[0] in gone && gone == {7};
    assert s.entries - gone == map[];
    assert HostsOf(s.entries, [7]) == [2];
  }

  lemma ToReclaimed()
    ensures Leads(RESUMING, [Reap([7]), Unregister, Reclaim], RECLAIMED)
  {
    ReapSeven(RESUMING);
    var s1 := RESUMING.(entries := map[], reclaiming := [2]);
    var s2 := s1.(queues := {}, cleared := true);
    assert Do(s1, Unregister) == s2;
    assert Do(s2, Reclaim) == RECLAIMED;
    Then(s2, Reclaim, [], RECLAIMED);
    Then(s1, Unregister, [Reclaim], RECLAIMED);
    Then(RESUMING, Reap([7]), [Unregister, Reclaim], RECLAIMED);
  }

  lemma ToReissued()
    ensures Leads(RECLAIMED, [Accept(2), Announce(2), Enter(2, 8)], REISSUED)
  {
    var s1 := RECLAIMED.(pool := Pool(4, []), reserved := map[1 := 3, 2 := 2]);
    assert Do(RECLAIMED, Accept(2)) == s1;
    var s2 := s1.(announced := {2}, queues := {2});
    assert Do(s1, Announce(2)) == s2;
    assert Do(s2, Enter(2, 8)) == REISSUED;
    Then(s2, Enter(2, 8), [], REISSUED);
    Then(s1, Announce(2), [Enter(2, 8)], REISSUED);
    Then(RECLAIMED, Accept(2), [Announce(2), Enter(2, 8)], REISSUED);
  }

  lemma ToShared()
    ensures Leads(REISSUED, [Attach(2), Attach(1)], SHARED)
  {
    var s1 := Do(REISSUED, Attach(2));
    assert Do(s1, Attach(1)) == SHARED;
    Then(s1, Attach(1), [], SHARED);
    Then(REISSUED, Attach(2), [Attach(1)], SHARED);
  }

  lemma FromReclaimed()
    ensures Leads(RECLAIMED, [Accept(2), Announce(2), Enter(2, 8)] + [Attach(2), Attach(1)], SHARED)
  {
    ToReissued();
    ToShared();
    LeadsOn(RECLAIMED, [Accept(2), Announce(2), Enter(2, 8)], REISSUED, [Attach(2), Attach(1)], SHARED);
  }

  /** A run in which two attached connections share an address: the session that one of them is
      resuming expires while it replays. */
  lemma LateAttachSharesAddress() returns (es: seq<Step>)
    ensures es == [Accept(0), Announce(0), Enter(0, 7)]
                  + ([Attach(0), Hangup(0), Accept(1), Lookup(1, 7)]
                     + ([Reap([7]), Unregister, Reclaim]
                        + ([Accept(2), Announce(2), Enter(2, 8)] + [Attach(2), Attach(1)])))
    ensures Run(BOOT, es)
    ensures var s := After(BOOT, es);
      && 1 in s.live && 2 in s.live && s.live[1].lease.host == s.live[2].lease.host
      && !Registered(s, s.live[1]) && Registered(s, s.live[2])
  {
    var a, b := [Accept(0), Announce(0), Enter(0, 7)], [Attach(0), Hangup(0), Accept(1), Lookup(1, 7)];
    var c, d, e := [Reap([7]), Unregister, Reclaim], [Accept(2), Announce(2), Enter(2, 8)], [Attach(2), Attach(1)];
    ToEntered();
    ToResuming();
    ToReclaimed();
    FromReclaimed();
    LeadsOn(RESUMING, c, RECLAIMED, d + e, SHARED);
    LeadsOn(ENTERED, b, RESUMING, c + (d + e), SHARED);
    LeadsOn(BOOT, a, ENTERED, b + (c + (d + e)), SHARED);
    es := a + (b + (c + (d + e)));
  }

  // ----------------------------------------------------------------- readers

  /** Every read loop reads for a session that owns its address still. */
  predicate ReadersOwned(s: Server) { forall c :: c in s.reading ==> Registered(s, s.reading[c]) }

  /** It attaches nothing to an entry that is gone, and reaps no session that a read loop reads for. */
  predicate SparesReaders(s: Server, e: Step)
    requires Can(s, e)
  {
    && (e.Attach? ==> Registered(s, s.holding[e.conn]))
    && (e.Reap? ==> forall c :: c in s.reading ==> s.reading[c].sid !in e.sids)
  }

  lemma ReadersOwnedStep(s: Server, e: Step)
    requires ReadersOwned(s) && Can(s, e)
    ensures ReadersOwned(Do(s, e)) <==> SparesReaders(s, e)
  {
    var t := Do(s, e);
    if e.Attach? {
      assert t.reading[e.conn] == s.holding[e.conn];
    } else if e.Reap? {
      ReapKeepsOthers(s, e.sids);
      assert forall c :: c in s.reading ==> t.reading[c] == s.reading[c];
    }
  }

  ghost predicate AlwaysReadersOwned(s: Server, es: seq<Step>)
    requires Run(s, es)
    decreases |es|
  {
    ReadersOwned(s) && (es == [] || AlwaysReadersOwned(Do(s, es[0]), es[1..]))
  }

  predicate AlwaysSparesReaders(s: Server, es: seq<Step>)
    requires Run(s, es)
    decreases |es|
  {
    es == [] || (SparesReaders(s, es[0]) && AlwaysSparesReaders(Do(s, es[0]), es[1..]))
  }

  /** What a connection forwards leaves under an address that its session owns, throughout a run, if and
      only if every attach is in time and no session is reaped while a read loop still reads for it. The
      reaper looks at writers and at the time of the last frame, not at read loops. */
  lemma {:induction false} ReadersOwnedExactly(s: Server, es: seq<Step>)
    requires ReadersOwned(s) && Run(s, es)
    ensures AlwaysReadersOwned(s, es) <==> AlwaysSparesReaders(s, es)
    decreases |es|
  {
    if es != [] {
      ReadersOwnedStep(s, es[0]);
      if ReadersOwned(Do(s, es[0])) { ReadersOwnedExactly(Do(s, es[0]), es[1..]); }
    }
  }

  lemma {:induction false} ReadersOwnedAtEnd(s: Server, es: seq<Step>)
    requires ReadersOwned(s) && Run(s, es) && AlwaysSparesReaders(s, es)
    ensures ReadersOwned(After(s, es))
    decreases |es|
  {
    if es != [] {
      ReadersOwnedStep(s, es[0]);
      ReadersOwnedAtEnd(Do(s, es[0]), es[1..]);
    }
  }

  /** And then read loops that share an address read for the same session. */
  lemma ReadersOfOneSession(es: seq<Step>)
    requires Run(BOOT, es) && AlwaysSparesReaders(BOOT, es)
    ensures var s := After(BOOT, es);
      && ReadersOwned(s)
      && forall c, d :: c in s.reading && d in s.reading && s.reading[c].lease.host == s.reading[d].lease.host
                        ==> s.reading[c] == s.reading[d]
  {
    ReadersOwnedAtEnd(BOOT, es);
    NoAddressTwice(es);
  }

  /** Connection 1 has taken session 7 over from connection 0, which still reads. */
  const OVERTAKEN: Server := ENTERED.(
    pool := Pool(4, []), reserved := map[1 := 3], holding := map[], live := map[1 := Claim(7, Lease(0, 2))],
    reading := map[0 := Claim(7, Lease(0, 2)), 1 := Claim(7, Lease(0, 2))])

  /** Connection 1 has gone. */
  const LEFT: Server := OVERTAKEN.(
    pool := Pool(4, [3]), reserved := map[], live := map[], reading := map[0 := Claim(7, Lease(0, 2))])

  /** Session 7 has been reaped and its address returned. */
  const EXPIRED: Server := LEFT.(pool := Pool(4, [3, 2]), entries := map[], queues := {})

  /** Session 8 has the address, and connection 0 still reads for session 7. */
  const OUTLIVED: Server := Server(
    Pool(4, [3]), map[], {}, map[8 := Lease(1, 2)], 2, map[], map[2 := Claim(8, Lease(1, 2))],
    map[0 := Claim(7, Lease(0, 2)), 2 := Claim(8, Lease(1, 2))], [], false, {2})

  lemma ToOvertaken()
    ensures Leads(ENTERED, [Attach(0), Accept(1), Lookup(1, 7), Attach(1)], OVERTAKEN)
    ensures AttachesInTime(ENTERED, [Attach(0), Accept(1), Lookup(1, 7), Attach(1)])
  {
    var s1 := Do(ENTERED, Attach(0));
    var s2 := Do(s1, Accept(1));
    var s3 := Do(s2, Lookup(1, 7));
    assert s3.live == map[0 := Claim(7, Lease(0, 2))] && s3.holding == map[1 := Claim(7, Lease(0, 2))];
    assert Do(s3, Attach(1)) == OVERTAKEN;
    Then(s3, Attach(1), [], OVERTAKEN);
    Then(s2, Lookup(1, 7), [Attach(1)], OVERTAKEN);
    Then(s1, Accept(1), [Lookup(1, 7), Attach(1)], OVERTAKEN);
    Then(ENTERED, Attach(0), [Accept(1), Lookup(1, 7), Attach(1)], OVERTAKEN);
  }

  lemma ToLeft()
    ensures Leads(OVERTAKEN, [Hangup(1), GiveBack(1)], LEFT)
    ensures AttachesInTime(OVERTAKEN, [Hangup(1), GiveBack(1)])
  {
    var s1 := Do(OVERTAKEN, Hangup(1));
    assert Do(s1, GiveBack(1)) == LEFT;
    Then(s1, GiveBack(1), [], LEFT);
    Then(OVERTAKEN, Hangup(1), [GiveBack(1)], LEFT);
  }

  lemma ToExpired()
    ensures Leads(LEFT, [Reap([7]), Unregister, Reclaim], EXPIRED)
    ensures AttachesInTime(LEFT, [Reap([7]), Unregister, Reclaim])
  {
    ReapSeven(LEFT);
    var s1 := LEFT.(entries := map[], reclaiming := [2]);
    var s2 := s1.(queues := {}, cleared := true);
    assert Do(s1, Unregister) == s2;
    assert Do(s2, Reclaim) == EXPIRED;
    Then(s2, Reclaim, [], EXPIRED);
    Then(s1, Unregister, [Reclaim], EXPIRED);
    Then(LEFT, Reap([7]), [Unregister, Reclaim], EXPIRED);
  }

  const ENTERING: Server := EXPIRED.(
    pool := Pool(4, [3]), reserved := map[2 := 2], announced := {2}, queues := {2})

  lemma ToEntering()
    ensures Leads(EXPIRED, [Accept(2), Announce(2)], ENTERING)
    ensures AttachesInTime(EXPIRED, [Accept(2), Announce(2)])
  {
    var s1 := EXPIRED.(pool := Pool(4, [3]), reserved := map[2 := 2]);
    assert Do(EXPIRED, Accept(2)) == s1;
    assert Do(s1, Announce(2)) == ENTERING;
    Then(s1, Announce(2), [], ENTERING);
    Then(EXPIRED, Accept(2), [Announce(2)], ENTERING);
  }

  lemma ToOutlived()
    ensures Leads(ENTERING, [Enter(2, 8), Attach(2)], OUTLIVED)
    ensures AttachesInTime(ENTERING, [Enter(2, 8), Attach(2)])
  {
    var s3 := ENTERING.(announced := {}, reserved := map[], entries := map[8 := Lease(1, 2)], serial := 2,
                        holding := map[2 := Claim(8, Lease(1, 2))]);
    assert Do(ENTERING, Enter(2, 8)) == s3;
    assert Do(s3, Attach(2)) == OUTLIVED;
    Then(s3, Attach(2), [], OUTLIVED);
    Then(ENTERING, Enter(2, 8), [Attach(2)], OUTLIVED);
  }

  /** A run, every attach in time, in which an evicted connection outlives its session and still reads
      when the address has gone to another one. */
  lemma EvictedReaderSharesAddress() returns (es: seq<Step>)
    ensures Run(BOOT, es) && AttachesInTime(BOOT, es)
    ensures var s := After(BOOT, es);
      && 0 in s.reading && 0 !in s.live && 2 in s.live
      && s.reading[0].lease.host == s.live[2].lease.host
      && !Registered(s, s.reading[0]) && Registered(s, s.live[2])
  {
    var a, b := [Accept(0), Announce(0), Enter(0, 7)], [Attach(0), Accept(1), Lookup(1, 7), Attach(1)];
    var c, d := [Hangup(1), GiveBack(1)], [Reap([7]), Unregister, Reclaim];
    ToEntered();
    ToOvertaken();
    ToLeft();
    ToExpired();
    var e := FromExpired();
    LeadsOn(LEFT, d, EXPIRED, e, OUTLIVED);
    LeadsOn(OVERTAKEN, c, LEFT, d + e, OUTLIVED);
    LeadsOn(ENTERED, b, OVERTAKEN, c + (d + e), OUTLIVED);
    LeadsOn(BOOT, a, ENTERED, b + (c + (d + e)), OUTLIVED);
    es := a + (b + (c + (d + e)));
  }

  lemma FromExpired() returns (es: seq<Step>)
    ensures Leads(EXPIRED, es, OUTLIVED) && AttachesInTime(EXPIRED, es)
  {
    ToEntering();
    ToOutlived();
    es := [Accept(2), Announce(2)] + [Enter(2, 8), Attach(2)];
    LeadsOn(EXPIRED, [Accept(2), Announce(2)], ENTERING, [Enter(2, 8), Attach(2)], OUTLIVED);
  }

  /** `allocate` fails exactly when every address is reserved, owned or being reclaimed. */
  lemma ExhaustedExactly(es: seq<Step>)
    requires Run(BOOT, es)
    ensures var s := After(BOOT, es);
      Take(s.pool).1 == None <==> forall h :: IsHost(h) ==> !Holds(s, h, Fresh) && !Holds(s, h, Freed)
  {
    var s := After(BOOT, es);
    var place := Booted(es);
    if s.pool.freed != [] { assert IsHost(s.pool.freed[0]) && Holds(s, s.pool.freed[0], Freed); }
    if s.pool.next < LIMIT { assert IsHost(s.pool.next) && Holds(s, s.pool.next, Fresh); }
  }

  /** A free address never has a forwarder queue, and so neither has one just handed out. */
  lemma FreeAddressHasNoQueue(es: seq<Step>, h: nat)
    requires Run(BOOT, es)
    ensures var s := After(BOOT, es);
      && (IsHost(h) && (Holds(s, h, Fresh) || Holds(s, h, Freed)) ==> h !in s.queues)
      && (Take(s.pool).1 == Some(h) ==> IsHost(h) && h !in s.queues)
  {
    var s := After(BOOT, es);
    var place := Booted(es);
    if IsHost(h) && Holds(s, h, Fresh) { assert place[h] == Fresh; }
    if IsHost(h) && Holds(s, h, Freed) { assert place[h] == Freed; }
    if Take(s.pool).1 == Some(h) && s.pool.freed != [] { assert Holds(s, h, Freed); }
  }

  /** Session identifiers must not repeat: entering one that the registry already has loses the
      address of the session it displaces for good, and entering any other keeps every address. */
  lemma DuplicateIdLeaks(s: Server, place: map<nat, Place>, c: Conn, sid: Sid)
    requires Inv(s, place) && c in s.announced
    ensures (forall h :: IsHost(h) ==> OneHolder(Entered(s, c, sid), h)) <==> sid !in s.entries
  {
    var t := Entered(s, c, sid);
    if sid in s.entries {
      var h := s.entries[sid].host;
      assert Holds(s, h, Owned(sid)) && Holds(s, s.reserved[c], Reserved(c));
      forall p ensures !Holds(t, h, p) { assert Holds(s, h, p) <==> place[h] == p; }
    } else {
      EnterMoves(s, place, c, sid);
      var moved := place[s.reserved[c] := Owned(sid)];
      forall h | IsHost(h) ensures OneHolder(t, h) {
        assert Holds(t, h, moved[h]);
        forall q | Holds(t, h, q) ensures q == moved[h] {}
      }
    }
  }

  // ----------------------------------------------------------------- registry

  /** What an entry shows of itself: its address, the connection whose tasks are attached to it and not
      over, and when it was last seen, in milliseconds. */
  datatype Shown = Shown(lease: Lease, attached: Option<Conn>, lastSeen: nat)

  type View = map<Sid, Shown>

  /** What happens to a registry. */
  datatype Act =
    | Put(id: Sid, lease: Lease, now: nat)  // `insert`
    | Hold(id: Sid, conn: Conn, now: nat)   // `attach` on a registered entry
    | Heard(id: Sid, now: nat)              // `touch`
    | Leave(id: Sid)                        // the attached writer is over
    | Quit(id: Sid, conn: Conn, now: nat)   // a read loop is over
    | Sweep(now: nat)                       // `reap_expired`

  function Acted(view: View, a: Act): View {
    match a
    case Put(id, lease, now) => view[id := Shown(lease, None, now)]
    case Sweep(now) =>
      map k | k in view && !(view[k].attached.None? && now - view[k].lastSeen > LINGER) :: view[k]
    case _ =>
      if a.id !in view then view
      else
        var e := view[a.id];
        view[a.id := match a
                     case Hold(_, conn, now) => Shown(e.lease, Some(conn), now)
                     case Heard(_, now) => e.(lastSeen := now)
                     case Leave(_) => e.(attached := None)
                     case Quit(_, conn, now) =>
                       Shown(e.lease, if e.attached == Some(conn) then None else e.attached, now)]
  }

  function ActedAll(view: View, acts: seq<Act>): View
    decreases |acts|
  {
    if acts == [] then view else ActedAll(Acted(view, acts[0]), acts[1..])
  }

  /** A registry with this view is the server's, with the right entries attached. */
  ghost predicate Shows(view: View, s: Server) {
    && view.Keys == s.entries.Keys
    && (forall k :: k in view ==> view[k].lease == s.entries[k])
    && (forall k, c :: k in view ==>
          (view[k].attached == Some(c) <==> c in s.live && s.live[c] == Claim(k, view[k].lease)))
  }

  /** An entry of the registry; its tasks and its age decide whether it may be reaped. */
  class SessionEntry {
    const id: Sid
    const lease: Lease
    var attached: Option<Conn>
    var lastSeen: nat

    constructor (id: Sid, lease: Lease, now: nat)
      ensures this.id == id && this.lease == lease && attached == None && lastSeen == now
    {
      this.id, this.lease, attached, lastSeen := id, lease, None, now;
    }

    predicate Expired(now: nat)
      reads this
    {
      attached.None? && now - lastSeen > LINGER
    }

    /** `attach`: replace whoever was attached. The registry shows it, if it still has the entry. */
    method Attach(conn: Conn, now: nat, ghost r: SessionRegistry)
      requires r.Valid()
      modifies this
      ensures attached == Some(conn) && lastSeen == now && r.Valid()
      ensures r.View() == if r.Has(this) then Acted(old(r.View()), Hold(id, conn, now)) else old(r.View())
    {
      attached, lastSeen := Some(conn), now;
    }

    /** `touch`: a frame arrived. */
    method Touch(now: nat, ghost r: SessionRegistry)
      requires r.Valid()
      modifies this
      ensures attached == old(attached) && lastSeen == now && r.Valid()
      ensures r.View() == if r.Has(this) then Acted(old(r.View()), Heard(id, now)) else old(r.View())
    {
      lastSeen := now;
    }

    /** The attached connection's writer is over; when the entry was last seen stays as it is. */
    method Finish(ghost r: SessionRegistry)
      requires r.Valid()
      modifies this
      ensures attached == None && lastSeen == old(lastSeen) && r.Valid()
      ensures r.View() == if r.Has(this) then Acted(old(r.View()), Leave(id)) else old(r.View())
    {
      attached := None;
    }

    /** A read loop is over. It ends the writer of its own connection, which need not be the one that is
        attached. */
    method Hangup(conn: Conn, now: nat, ghost r: SessionRegistry)
      requires r.Valid()
      modifies this
      ensures attached == (if old(attached) == Some(conn) then None else old(attached)) && lastSeen == now && r.Valid()
      ensures r.View() == if r.Has(this) then Acted(old(r.View()), Quit(id, conn, now)) else old(r.View())
    {
      if attached == Some(conn) { attached := None; }
      lastSeen := now;
    }
  }

  class SessionRegistry {
    var entries: map<Sid, SessionEntry>

    ghost predicate Valid()
      reads this
    {
      forall k :: k in entries ==> entries[k].id == k
    }

    predicate Has(e: SessionEntry)
      reads this
    {
      e.id in entries && entries[e.id] == e
    }

    ghost function View(): View
      reads this, entries.Values
    {
      map k | k in entries :: Shown(entries[k].lease, entries[k].attached, entries[k].lastSeen)
    }

    constructor ()
      ensures Valid() && View() == map[]
    {
      entries := map[];
    }

    method Insert(id: Sid, lease: Lease, now: nat) returns (entry: SessionEntry)
      requires Valid()
      modifies this
      ensures Valid() && fresh(entry) && Has(entry) && entry.lease == lease
      ensures View() == Acted(old(View()), Put(id, lease, now))
    {
      entry := new SessionEntry(id, lease, now);
      entries := entries[id := entry];
    }

    method Get(id: Sid) returns (found: Option<SessionEntry>)
      requires Valid()
      ensures found.Some? <==> id in View()
      ensures found.Some? ==> Has(found.value)
      ensures found.Some? ==> Shown(found.value.lease, found.value.attached, found.value.lastSeen) == View()[id]
    {
      if id !in entries { return None; }
      return Some(entries[id]);
    }

    /** `retain`: what has not expired is kept, and the addresses of the rest are collected. */
    method Retain(now: nat) returns (kept: map<Sid, SessionEntry>, reclaimed: seq<nat>, ghost ids: seq<Sid>)
      ensures forall k :: k in kept <==>
        k in entries && !(entries[k].attached.None? && now - entries[k].lastSeen > 120_000)
      ensures forall k :: k in kept ==> kept[k] == entries[k]
      ensures |ids| == |reclaimed| && Distinct(ids)
      ensures forall i :: 0 <= i < |ids| ==> ids[i] in entries && reclaimed[i] == entries[ids[i]].lease.host
      ensures forall k :: k in ids <==>
        k in entries && entries[k].attached.None? && now - entries[k].lastSeen > 120_000
    {
      var left := entries.Keys;
      kept, reclaimed, ids := entries, [], [];
      while left != {}
        invariant left <= entries.Keys && kept.Keys <= entries.Keys
        invariant forall k :: k in entries ==> (k in kept <==> k in left || !entries[k].Expired(now))
        invariant forall k :: k in kept ==> kept[k] == entries[k]
        invariant |ids| == |reclaimed| && Distinct(ids)
        invariant forall i :: 0 <= i < |ids| ==> ids[i] in entries && reclaimed[i] == entries[ids[i]].lease.host
        invariant forall k :: k in ids <==> k in entries && k !in left && entries[k].Expired(now)
        decreases |left|
      {
        var k :| k in left;
        left := left - {k};
        if entries[k].Expired(now) {
          kept := kept - {k};
          reclaimed, ids := reclaimed + [entries[k].lease.host], ids + [k];
        }
      }
    }

    /** Drop exactly the sessions that nothing has been attached to or heard from for more than two
        minutes, and return their addresses. */
    method ReapExpired(now: nat) returns (reclaimed: seq<nat>, ghost ids: seq<Sid>)
      requires Valid()
      modifies this
      ensures Valid()
      ensures forall k :: k in ids <==>
        k in old(entries) && old(entries)[k].attached.None? && now - old(entries)[k].lastSeen > 120_000
      ensures forall k :: k in entries <==>
        k in old(entries) && !(old(entries)[k].attached.None? && now - old(entries)[k].lastSeen > 120_000)
      ensures forall k :: k in entries ==> entries[k] == old(entries)[k]
      ensures View() == Acted(old(View()), Sweep(now))
      ensures ReapedView(old(View()), View(), ids, reclaimed)
    {
      var kept;
      kept, reclaimed, ids := Retain(now);
      entries := kept;
    }
  }

  /** `after` is what is left of a view once the unattached sessions `ids`, with the given addresses,
      are dropped from it. */
  ghost predicate ReapedView(view: View, after: View, ids: seq<Sid>, hosts: seq<nat>) {
    && Distinct(ids) && |hosts| == |ids|
    && (forall i :: 0 <= i < |ids| ==>
          ids[i] in view && view[ids[i]].attached == None && hosts[i] == view[ids[i]].lease.host)
    && (forall k :: k in after <==> k in view && k !in ids)
    && (forall k :: k in after ==> after[k] == view[k])
  }

  /** `insert` is the registry's part of the step `Enter`. */
  lemma InsertIsEnter(view: View, s: Server, c: Conn, sid: Sid, now: nat)
    requires Shows(view, s) && Attachments(s) && Can(s, Enter(c, sid))
    ensures var lease := Lease(s.serial, s.reserved[c]);
      && Shows(Acted(view, Put(sid, lease, now)), Do(s, Enter(c, sid)))
      && Do(s, Enter(c, sid)).holding[c] == Claim(sid, lease)
  {
  }

  /** `get` finds an entry exactly when a waiting connection may look it up, and that is what the
      connection then holds. */
  lemma GetIsLookup(view: View, s: Server, c: Conn, sid: Sid)
    requires Shows(view, s) && c in s.reserved && c !in s.announced && c !in s.holding && c !in s.reading
    ensures sid in view <==> Can(s, Lookup(c, sid))
    ensures sid in view ==>
      var t := Do(s, Lookup(c, sid)); t.holding[c] == Claim(sid, view[sid].lease) && Shows(view, t)
  {
  }

  /** `attach` on an entry is the step `Attach`, whether or not the registry still has the entry. */
  lemma EntryAttachIsAttach(view: View, s: Server, c: Conn, now: nat)
    requires Shows(view, s) && Attachments(s) && Can(s, Attach(c))
    ensures var claim := s.holding[c];
      Shows(if Registered(s, claim) then Acted(view, Hold(claim.sid, c, now)) else view, Do(s, Attach(c)))
  {
  }

  lemma FinishIsDetach(view: View, s: Server, c: Conn)
    requires Shows(view, s) && Attachments(s) && Can(s, Detach(c))
    ensures var claim := s.live[c];
      Shows(if Registered(s, claim) then Acted(view, Leave(claim.sid)) else view, Do(s, Detach(c)))
  {
  }

  lemma HangupIsHangup(view: View, s: Server, c: Conn, now: nat)
    requires Shows(view, s) && Attachments(s) && Can(s, Hangup(c))
    ensures var claim := s.reading[c];
      Shows(if Registered(s, claim) then Acted(view, Quit(claim.sid, c, now)) else view, Do(s, Hangup(c)))
  {
  }

  /** What `reap_expired` drops is a step `Reap` that the server may make, and the addresses it
      returns are the ones the server then reclaims. */
  lemma ReapExpiredIsReap(view: View, after: View, s: Server, ids: seq<Sid>, hosts: seq<nat>)
    requires Shows(view, s) && s.reclaiming == [] && ReapedView(view, after, ids, hosts)
    ensures Can(s, Reap(ids)) && hosts == Do(s, Reap(ids)).reclaiming && Shows(after, Do(s, Reap(ids)))
  {
    forall i | 0 <= i < |ids| ensures ids[i] in s.entries && !Attached(s, ids[i]) {
      forall c ensures !(c in s.live && s.live[c] == Claim(ids[i], s.entries[ids[i]])) {
        assert view[ids[i]].attached != Some(c);
      }
    }
    assert hosts == HostsOf(s.entries, ids);
    ReapKeepsOthers(s, ids);
  }

  // --------------------------------------------------- how long a session is kept

  /** No act that sets a time sets one before `t`, and no sweep is later than two minutes after it. */
  predicate Within(acts: seq<Act>, t: nat) {
    forall a :: a in acts ==>
      (a.Put? || a.Hold? || a.Heard? || a.Quit? ==> a.now >= t) && (a.Sweep? ==> a.now <= t + 120_000)
  }

  /** A session that was attached to, heard from or hung up on at time `t` is still found two minutes
      later, whatever is done to it and to the others in between. */
  lemma {:induction false} FoundForTwoMinutes(view: View, acts: seq<Act>, id: Sid, t: nat)
    requires id in view && view[id].lastSeen >= t && Within(acts, t)
    ensures id in ActedAll(view, acts) && ActedAll(view, acts)[id].lastSeen >= t
    decreases |acts|
  {
    if acts != [] {
      assert acts[0] in acts && forall a :: a in acts[1..] ==> a in acts;
      FoundForTwoMinutes(Acted(view, acts[0]), acts[1..], id, t);
    }
  }

  /** Each of these leaves the session it names seen at that time. */
  lemma SeenNow(view: View, id: Sid, conn: Conn, t: nat)
    requires id in view
    ensures Acted(view, Hold(id, conn, t))[id].lastSeen == t
    ensures Acted(view, Heard(id, t))[id].lastSeen == t
    ensures Acted(view, Quit(id, conn, t))[id].lastSeen == t
    ensures Acted(view, Leave(id))[id].lastSeen == view[id].lastSeen
  {
  }

  /** Nothing is done to this session. */
  predicate LeavesAlone(acts: seq<Act>, id: Sid) { forall a :: a in acts && !a.Sweep? ==> a.id != id }

  /** How long a session is kept, exactly: one that nothing is attached to and that nothing is done to is
      there after any acts if and only if none of the sweeps among them came more than two minutes after
      it was last seen. */
  lemma {:induction false} KeptExactly(view: View, acts: seq<Act>, id: Sid)
    requires id in view && view[id].attached == None && LeavesAlone(acts, id)
    ensures id in ActedAll(view, acts) <==>
            forall a :: a in acts && a.Sweep? ==> a.now <= view[id].lastSeen + 120_000
    decreases |acts|
  {
    if acts != [] {
      var a, rest := acts[0], acts[1..];
      assert acts == [a] + rest;
      if a.Sweep? && a.now > view[id].lastSeen + 120_000 {
        NeverBack(Acted(view, a), rest, id);
      } else {
        KeptExactly(Acted(view, a), rest, id);
      }
    }
  }

  lemma {:induction false} NeverBack(view: View, acts: seq<Act>, id: Sid)
    requires id !in view && LeavesAlone(acts, id)
    ensures id !in ActedAll(view, acts)
    decreases |acts|
  {
    if acts != [] {
      assert acts == [acts[0]] + acts[1..];
      NeverBack(Acted(view, acts[0]), acts[1..], id);
    }
  }

  /** A session that is attached to is never reaped, however long it has been silent. */
  lemma AttachedIsKept(view: View, id: Sid, now: nat)
    requires id in view && view[id].attached.Some?
    ensures id in Acted(view, Sweep(now)) && Acted(view, Sweep(now))[id] == view[id]
  {
  }
}
