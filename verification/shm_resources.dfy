/** Pools, buffers, descriptors and mappings of the shared-memory globals: what every
    sequence of requests keeps, including the failure branches, and what the missing
    unlink in the buffer destructor costs (src/wayland/shm.c). */
module ShmResources {
  import opened Options
  import opened ShmSizes

  /** `id` is the identity of the allocation. `buffers` is the pool's list, newest first;
      a destroyed buffer stays in it. */
  datatype Pool = Pool(id: nat, fd: int, size: nat, data: nat, buffers: seq<nat>)

  datatype Buffer = Buffer(fd: int, request: Request, size: nat, format: PixelFormat)

  datatype Shm = Shm(
    pools: seq<Pool>,            // newest first
    buffers: map<nat, Buffer>,   // live buffers
    nextId: nat,
    received: seq<int>,          // valid descriptors handed over with create_pool
    closed: seq<int>,
    mapped: seq<nat>,            // addresses mmap returned
    unmapped: seq<nat>
  )

  /** A request with the outcome of the allocations and of mmap along its way. */
  datatype Call =
    | CreatePool(fd: int, size: int32, memory: bool, mapping: Option<nat>, resource: bool)
    | CreateBuffer(pool: nat, request: Request, resource: bool, memory: bool)
    | DestroyBuffer(buffer: nat)
    | DestroyPool(pool: nat)

  function PoolIndex(pools: seq<Pool>, id: nat): (i: nat)
    ensures i <= |pools|
    ensures i < |pools| ==> pools[i].id == id
    ensures forall j :: 0 <= j < i ==> pools[j].id != id
  {
    if pools == [] || pools[0].id == id then 0 else 1 + PoolIndex(pools[1..], id)
  }

  predicate HasPool(pools: seq<Pool>, id: nat) {
    PoolIndex(pools, id) < |pools|
  }

  function Fds(pools: seq<Pool>): seq<int> {
    seq(|pools|, i requires 0 <= i < |pools| => pools[i].fd)
  }

  function Datas(pools: seq<Pool>): seq<nat> {
    seq(|pools|, i requires 0 <= i < |pools| => pools[i].data)
  }

  /** What the kernel and libwayland promise: a received descriptor and a new mapping are
      not in use already, and requests name live objects. */
  predicate Possible(s: Shm, c: Call) {
    match c
    case CreatePool(fd, _, _, mapping, _) =>
      && (fd >= 0 ==> fd !in Fds(s.pools))
      && (mapping.Some? ==> mapping.value != 0 && mapping.value !in Datas(s.pools))
    case CreateBuffer(pool, _, _, _) => HasPool(s.pools, pool)
    case DestroyBuffer(b) => b in s.buffers
    case DestroyPool(pool) => HasPool(s.pools, pool)
  }

  /** Inserting at the head of a list writes to the node that was first. */
  predicate InsertIsSafe(s: Shm, list: seq<nat>) {
    list == [] || list[0] in s.buffers
  }

  /** Tearing down a pool reads every node of its list. */
  predicate WalkIsSafe(s: Shm, list: seq<nat>) {
    forall b :: b in list ==> b in s.buffers
  }

  function WithoutIndex(pools: seq<Pool>, i: nat): seq<Pool>
    requires i < |pools|
  {
    pools[..i] + pools[i + 1..]
  }

  function NewBuffer(p: Pool, r: Request): Buffer
    requires 0 < r.height
  {
    Buffer(p.fd, r, BufferSize(r), ToPixelFormat(r.format))
  }

  /** The state after a request; None when the code would touch a freed buffer. */
  function Handle(s: Shm, c: Call): Option<Shm>
    requires Possible(s, c)
  {
    match c
    case CreatePool(fd, size, memory, mapping, resource) =>
      var t := if fd >= 0 then s.(received := s.received + [fd]) else s;
      var shut := if fd >= 0 then t.(closed := t.closed + [fd]) else t;
      if size <= 0 then Some(shut)
      else if fd < 0 then Some(t)
      else if !memory || mapping.None? then Some(shut)
      else if !resource then
        Some(shut.(mapped := s.mapped + [mapping.value], unmapped := s.unmapped + [mapping.value]))
      else
        Some(t.(pools := [Pool(s.nextId, fd, size, mapping.value, [])] + s.pools,
                nextId := s.nextId + 1,
                mapped := s.mapped + [mapping.value]))
    case CreateBuffer(pool, r, resource, memory) =>
      var i := PoolIndex(s.pools, pool);
      var p := s.pools[i];
      if !Check(p.size, r).Accepted? || !resource || !memory then Some(s)
      else if !InsertIsSafe(s, p.buffers) then None
      else
        Some(s.(pools := s.pools[i := p.(buffers := [s.nextId] + p.buffers)],
                buffers := s.buffers[s.nextId := NewBuffer(p, r)],
                nextId := s.nextId + 1))
    case DestroyBuffer(b) => Some(s.(buffers := s.buffers - {b}))
    case DestroyPool(pool) =>
      var i := PoolIndex(s.pools, pool);
      var p := s.pools[i];
      if !WalkIsSafe(s, p.buffers) then None
      else
        Some(s.(pools := WithoutIndex(s.pools, i),
                buffers := s.buffers - (set b | b in p.buffers),
                unmapped := s.unmapped + [p.data],
                closed := s.closed + [p.fd]))
  }

  predicate ValidRun(s: Shm, calls: seq<Call>)
    decreases |calls|
  {
    calls == [] ||
    (Possible(s, calls[0]) && Handle(s, calls[0]).Some? && ValidRun(Handle(s, calls[0]).value, calls[1..]))
  }

  function Run(s: Shm, calls: seq<Call>): Shm
    requires ValidRun(s, calls)
    decreases |calls|
  {
    if calls == [] then s else Run(Handle(s, calls[0]).value, calls[1..])
  }

  const Empty: Shm := Shm([], map[], 0, [], [], [], [])

  // ----- Invariant -----

  predicate DistinctPools(pools: seq<Pool>) {
    forall i, j :: 0 <= i < j < |pools| ==>
      && pools[i].id != pools[j].id && pools[i].fd != pools[j].fd && pools[i].data != pools[j].data
  }

  /** Each buffer identity is listed at most once. */
  predicate DistinctBuffers(pools: seq<Pool>) {
    && (forall i, a, b :: 0 <= i < |pools| && 0 <= a < b < |pools[i].buffers| ==>
          pools[i].buffers[a] != pools[i].buffers[b])
    && (forall i, j, b :: 0 <= i < j < |pools| && b in pools[i].buffers ==> b !in pools[j].buffers)
  }

  predicate Built(p: Pool) {
    p.fd >= 0 && p.data != 0 && PoolSize(p.size)
  }

  /** Identities are below the next one, and pools have what a successful create_pool
      gave them. */
  predicate BelowNext(s: Shm) {
    && (forall i :: 0 <= i < |s.pools| ==> s.pools[i].id < s.nextId && Built(s.pools[i]))
    && (forall i, b :: 0 <= i < |s.pools| && b in s.pools[i].buffers ==> b < s.nextId)
  }

  /** The pool that lists `b` is the one whose descriptor `b` uses. */
  predicate Owned(s: Shm, b: nat)
    requires b in s.buffers
  {
    exists i :: 0 <= i < |s.pools| && b in s.pools[i].buffers && s.buffers[b].fd == s.pools[i].fd
  }

  /** Received and not closed is what the pools own; likewise for mappings. */
  predicate Balanced(s: Shm) {
    && multiset(s.received) == multiset(s.closed) + multiset(Fds(s.pools))
    && multiset(s.mapped) == multiset(s.unmapped) + multiset(Datas(s.pools))
  }

  predicate AllOwned(s: Shm) {
    forall b :: b in s.buffers ==> Owned(s, b)
  }

  ghost predicate Inv(s: Shm) {
    Balanced(s) && DistinctPools(s.pools) && DistinctBuffers(s.pools) && BelowNext(s) && AllOwned(s)
  }

  lemma ConsFds(p: Pool, pools: seq<Pool>)
    ensures Fds([p] + pools) == [p.fd] + Fds(pools)
    ensures Datas([p] + pools) == [p.data] + Datas(pools)
  {
  }

  lemma RemoveFds(pools: seq<Pool>, i: nat)
    requires i < |pools|
    ensures multiset(Fds(pools)) == multiset(Fds(WithoutIndex(pools, i))) + multiset{pools[i].fd}
    ensures multiset(Datas(pools)) == multiset(Datas(WithoutIndex(pools, i))) + multiset{pools[i].data}
  {
    var a, b := pools[..i], pools[i + 1..];
    assert Fds(pools) == Fds(a) + [pools[i].fd] + Fds(b);
    assert Fds(a + b) == Fds(a) + Fds(b);
    assert Datas(pools) == Datas(a) + [pools[i].data] + Datas(b);
    assert Datas(a + b) == Datas(a) + Datas(b);
  }

  lemma ConsDistinct(p: Pool, pools: seq<Pool>)
    requires DistinctPools(pools) && DistinctBuffers(pools) && p.buffers == []
    requires p.fd !in Fds(pools) && p.data !in Datas(pools)
    requires forall i :: 0 <= i < |pools| ==> pools[i].id < p.id
    ensures DistinctPools([p] + pools) && DistinctBuffers([p] + pools)
  {
    forall i | 0 <= i < |pools|
      ensures pools[i].fd != p.fd && pools[i].data != p.data
    {
      assert Fds(pools)[i] == pools[i].fd && Datas(pools)[i] == pools[i].data;
    }
  }

  function AddToList(pools: seq<Pool>, i: nat, b: nat): seq<Pool>
    requires i < |pools|
  {
    pools[i := pools[i].(buffers := [b] + pools[i].buffers)]
  }

  lemma AddToListKeeps(pools: seq<Pool>, i: nat, b: nat)
    requires i < |pools| && DistinctPools(pools) && DistinctBuffers(pools)
    requires forall j :: 0 <= j < |pools| ==> b !in pools[j].buffers
    ensures DistinctPools(AddToList(pools, i, b)) && DistinctBuffers(AddToList(pools, i, b))
    ensures Fds(AddToList(pools, i, b)) == Fds(pools) && Datas(AddToList(pools, i, b)) == Datas(pools)
    ensures forall j, x :: 0 <= j < |pools| ==>
      (x in AddToList(pools, i, b)[j].buffers <==> x in pools[j].buffers || (j == i && x == b))
  {
  }

  lemma RemoveDistinct(pools: seq<Pool>, i: nat)
    requires i < |pools| && DistinctPools(pools) && DistinctBuffers(pools)
    ensures DistinctPools(WithoutIndex(pools, i)) && DistinctBuffers(WithoutIndex(pools, i))
  {
    var rest := WithoutIndex(pools, i);
    assert forall j :: 0 <= j < |rest| ==> rest[j] == pools[if j < i then j else j + 1];
  }

  /** An item received and given back at once, and one received and kept. */
  lemma PassedOn<T>(received: seq<T>, closed: seq<T>, owned: seq<T>, x: T)
    requires multiset(received) == multiset(closed) + multiset(owned)
    ensures multiset(received + [x]) == multiset(closed + [x]) + multiset(owned)
    ensures multiset(received + [x]) == multiset(closed) + multiset([x] + owned)
  {
  }

  lemma CreatePoolBalances(s: Shm, c: Call)
    requires Balanced(s) && Possible(s, c) && c.CreatePool?
    ensures Balanced(Handle(s, c).value)
  {
    var t := Handle(s, c).value;
    PassedOn(s.received, s.closed, Fds(s.pools), c.fd);
    if c.mapping.Some? {
      PassedOn(s.mapped, s.unmapped, Datas(s.pools), c.mapping.value);
    }
    if t.pools != s.pools {
      ConsFds(t.pools[0], s.pools);
    }
  }

  /** Where the pools that are left stand: `f` gives the new index of an old one. */
  lemma StillOwned(s: Shm, t: Shm, f: int -> int)
    requires AllOwned(s)
    requires forall b :: b in t.buffers ==> b in s.buffers && t.buffers[b] == s.buffers[b]
    requires forall i, b :: 0 <= i < |s.pools| && b in s.pools[i].buffers && b in t.buffers ==>
      0 <= f(i) < |t.pools| && t.pools[f(i)] == s.pools[i]
    ensures AllOwned(t)
  {
    forall b | b in t.buffers
      ensures Owned(t, b)
    {
      var i :| 0 <= i < |s.pools| && b in s.pools[i].buffers && s.buffers[b].fd == s.pools[i].fd;
      assert t.pools[f(i)] == s.pools[i];
    }
  }

  lemma CreatePoolDistinct(s: Shm, c: Call)
    requires DistinctPools(s.pools) && DistinctBuffers(s.pools) && BelowNext(s)
    requires Possible(s, c) && c.CreatePool?
    ensures DistinctPools(Handle(s, c).value.pools) && DistinctBuffers(Handle(s, c).value.pools)
  {
    var t := Handle(s, c).value;
    if t.pools != s.pools {
      assert t.pools == [t.pools[0]] + s.pools;
      ConsDistinct(t.pools[0], s.pools);
    }
  }

  lemma CreatePoolBelow(s: Shm, c: Call)
    requires BelowNext(s) && AllOwned(s) && Possible(s, c) && c.CreatePool?
    ensures BelowNext(Handle(s, c).value) && AllOwned(Handle(s, c).value)
  {
    var t := Handle(s, c).value;
    if t.pools == s.pools {
      StillOwned(s, t, i => i);
    } else {
      StillOwned(s, t, i => i + 1);
    }
  }

  lemma CreatePoolKeeps(s: Shm, c: Call)
    requires Inv(s) && Possible(s, c) && c.CreatePool?
    ensures Inv(Handle(s, c).value)
  {
    CreatePoolBalances(s, c);
    CreatePoolDistinct(s, c);
    CreatePoolBelow(s, c);
  }

  lemma CreateBufferKeeps(s: Shm, c: Call)
    requires Inv(s) && Possible(s, c) && c.CreateBuffer? && Handle(s, c).Some?
    ensures Inv(Handle(s, c).value)
  {
    var t := Handle(s, c).value;
    if t != s {
      var i := PoolIndex(s.pools, c.pool);
      assert t.pools == AddToList(s.pools, i, s.nextId);
      AddToListKeeps(s.pools, i, s.nextId);
      forall b | b in t.buffers
        ensures Owned(t, b)
      {
        var j :| 0 <= j < |s.pools|
              && if b == s.nextId then j == i
                 else b in s.pools[j].buffers && s.buffers[b].fd == s.pools[j].fd;
        assert b in t.pools[j].buffers && t.pools[j].fd == s.pools[j].fd;
      }
    }
  }

  lemma DestroyBufferKeeps(s: Shm, c: Call)
    requires Inv(s) && Possible(s, c) && c.DestroyBuffer?
    ensures Inv(Handle(s, c).value)
  {
    StillOwned(s, Handle(s, c).value, i => i);
  }

  lemma DestroyPoolBelow(s: Shm, c: Call)
    requires BelowNext(s) && Possible(s, c) && c.DestroyPool? && Handle(s, c).Some?
    ensures BelowNext(Handle(s, c).value)
  {
    var t := Handle(s, c).value;
    var i := PoolIndex(s.pools, c.pool);
    assert forall j :: 0 <= j < |t.pools| ==> t.pools[j] == s.pools[if j < i then j else j + 1];
  }

  lemma DestroyPoolOwned(s: Shm, c: Call)
    requires AllOwned(s) && Possible(s, c) && c.DestroyPool? && Handle(s, c).Some?
    ensures AllOwned(Handle(s, c).value)
  {
    var i := PoolIndex(s.pools, c.pool);
    StillOwned(s, Handle(s, c).value, j => if j < i then j else j - 1);
  }

  lemma DestroyPoolKeeps(s: Shm, c: Call)
    requires Inv(s) && Possible(s, c) && c.DestroyPool? && Handle(s, c).Some?
    ensures Inv(Handle(s, c).value)
  {
    var i := PoolIndex(s.pools, c.pool);
    RemoveFds(s.pools, i);
    RemoveDistinct(s.pools, i);
    DestroyPoolBelow(s, c);
    DestroyPoolOwned(s, c);
  }

  lemma InvStays(s: Shm, c: Call)
    requires Inv(s) && Possible(s, c) && Handle(s, c).Some?
    ensures Inv(Handle(s, c).value)
  {
    match c
    case CreatePool(_, _, _, _, _) => CreatePoolKeeps(s, c);
    case CreateBuffer(_, _, _, _) => CreateBufferKeeps(s, c);
    case DestroyBuffer(_) => DestroyBufferKeeps(s, c);
    case DestroyPool(_) => DestroyPoolKeeps(s, c);
  }

  lemma {:induction false} RunInv(s: Shm, calls: seq<Call>)
    requires Inv(s) && ValidRun(s, calls)
    ensures Inv(Run(s, calls))
    decreases |calls|
  {
    if calls != [] {
      InvStays(s, calls[0]);
      RunInv(Handle(s, calls[0]).value, calls[1..]);
    }
  }

  // ----- What the requests make -----

  /** A pool comes into being exactly when everything create_pool needs is there; otherwise
      what was received is given back at once and the pools stay. */
  lemma PoolMadeExactlyWhen(s: Shm, c: Call)
    requires Possible(s, c) && c.CreatePool?
    ensures var t := Handle(s, c).value;
            var made := c.fd >= 0 && c.size > 0 && c.memory && c.mapping.Some? && c.resource;
            && t.pools == (if made then [Pool(s.nextId, c.fd, c.size, c.mapping.value, [])] else []) + s.pools
            && t.nextId == s.nextId + (if made then 1 else 0)
            && t.closed == s.closed + (if c.fd >= 0 && !made then [c.fd] else [])
            && t.buffers == s.buffers
  {
    assert [] + s.pools == s.pools;
  }

  /** Below the width limit a buffer comes into being exactly when the request lies in the
      pool in true integers and the allocations succeed. It has the pool's descriptor and
      the true size, and heads the pool's list; nothing else changes. */
  lemma BufferMadeExactlyWhen(s: Shm, c: Call)
    requires Possible(s, c) && c.CreateBuffer? && Handle(s, c).Some? && c.request.width < 0x2000_0000
    requires PoolSize(s.pools[PoolIndex(s.pools, c.pool)].size)
    ensures var i := PoolIndex(s.pools, c.pool);
            var p, r := s.pools[i], c.request;
            var made := && 0 <= r.offset < p.size && 0 < r.width && 0 < r.height && 4 * r.width <= r.stride
                        && r.offset + r.height * r.stride <= p.size
                        && r.format in {0, 1, 0x34324152, 0x34324142, 0x34324241, 0x34324258}
                        && c.resource && c.memory;
            && (!made ==> Handle(s, c).value == s)
            && (made ==>
                  Handle(s, c).value ==
                  s.(pools := s.pools[i := p.(buffers := [s.nextId] + p.buffers)], nextId := s.nextId + 1,
                     buffers := s.buffers[s.nextId :=
                       Buffer(p.fd, r, r.height * r.stride, if r.format == 0 then PixelArgb
                                                            else if r.format == 1 then PixelXrgb
                                                            else PixelUnknown)]))
  {
    var p, r := s.pools[PoolIndex(s.pools, c.pool)], c.request;
    AcceptedBelowLimitExactlyWhen(p.size, r);
    if Check(p.size, r).Accepted? {
      SizesAreExact(p.size, r);
      PixelFormatExactly(r.format);
    }
  }

  predicate OwnsFd(s: Shm, fd: int) {
    exists i :: 0 <= i < |s.pools| && s.pools[i].fd == fd
  }

  predicate OwnsMapping(s: Shm, addr: nat) {
    exists i :: 0 <= i < |s.pools| && s.pools[i].data == addr
  }

  lemma OneOwner(s: Shm, fd: int)
    requires DistinctPools(s.pools)
    ensures multiset(Fds(s.pools))[fd] == if OwnsFd(s, fd) then 1 else 0
  {
    if OwnsFd(s, fd) {
      var i :| 0 <= i < |s.pools| && s.pools[i].fd == fd;
      RemoveFds(s.pools, i);
      var rest := WithoutIndex(s.pools, i);
      assert fd !in Fds(rest);
    } else {
      assert forall i :: 0 <= i < |s.pools| ==> Fds(s.pools)[i] == s.pools[i].fd;
      assert fd !in Fds(s.pools);
    }
  }

  lemma OneMapping(s: Shm, addr: nat)
    requires DistinctPools(s.pools)
    ensures multiset(Datas(s.pools))[addr] == if OwnsMapping(s, addr) then 1 else 0
  {
    if OwnsMapping(s, addr) {
      var i :| 0 <= i < |s.pools| && s.pools[i].data == addr;
      RemoveFds(s.pools, i);
      var rest := WithoutIndex(s.pools, i);
      assert addr !in Datas(rest);
    } else {
      assert forall i :: 0 <= i < |s.pools| ==> Datas(s.pools)[i] == s.pools[i].data;
      assert addr !in Datas(s.pools);
    }
  }

  /** In every run each descriptor has been closed once for every time it was received,
      except that the one live pool that owns it has not closed it yet; mappings obey the
      same rule; and every live buffer uses the descriptor of a live pool that lists it. */
  lemma ResourcesBalance(calls: seq<Call>, fd: int, addr: nat, b: nat)
    requires ValidRun(Empty, calls)
    ensures var s := Run(Empty, calls);
            && multiset(s.received)[fd] == multiset(s.closed)[fd] + (if OwnsFd(s, fd) then 1 else 0)
            && multiset(s.mapped)[addr] == multiset(s.unmapped)[addr] + (if OwnsMapping(s, addr) then 1 else 0)
            && DistinctPools(s.pools)
            && (b in s.buffers ==> Owned(s, b))
  {
    RunInv(Empty, calls);
    var s := Run(Empty, calls);
    OneOwner(s, fd);
    OneMapping(s, addr);
  }

  // ----- The missing unlink -----

  /** The buffers destroyed by a request of their own. */
  function Singles(calls: seq<Call>): set<nat> {
    set c | c in calls && c.DestroyBuffer? :: c.buffer
  }

  /** A listed buffer is live unless it was destroyed on its own. */
  predicate ListsAccount(s: Shm, singles: set<nat>) {
    && (forall i, b :: 0 <= i < |s.pools| && b in s.pools[i].buffers ==> (b in s.buffers <==> b !in singles))
    && (forall b :: b in singles ==> b < s.nextId)
  }

  lemma SinglesOfOne(c: Call)
    ensures Singles([c]) == if c.DestroyBuffer? then {c.buffer} else {}
  {
    if c.DestroyBuffer? { assert c in [c]; }
  }

  lemma CreatePoolAccounts(s: Shm, c: Call, singles: set<nat>)
    requires Possible(s, c) && c.CreatePool? && ListsAccount(s, singles)
    ensures ListsAccount(Handle(s, c).value, singles)
  {
    var t := Handle(s, c).value;
    if t.pools != s.pools {
      assert forall i :: 1 <= i < |t.pools| ==> t.pools[i] == s.pools[i - 1];
      assert t.pools[0].buffers == [];
    }
  }

  lemma CreateBufferAccounts(s: Shm, c: Call, singles: set<nat>)
    requires Possible(s, c) && c.CreateBuffer? && Handle(s, c).Some? && ListsAccount(s, singles)
    requires DistinctPools(s.pools) && DistinctBuffers(s.pools) && BelowNext(s)
    ensures ListsAccount(Handle(s, c).value, singles)
  {
    var t := Handle(s, c).value;
    if t != s {
      var k := PoolIndex(s.pools, c.pool);
      assert t.pools == AddToList(s.pools, k, s.nextId);
      AddToListKeeps(s.pools, k, s.nextId);
    }
  }

  lemma DestroyBufferAccounts(s: Shm, c: Call, singles: set<nat>)
    requires AllOwned(s) && BelowNext(s) && Possible(s, c) && c.DestroyBuffer? && ListsAccount(s, singles)
    ensures ListsAccount(Handle(s, c).value, singles + {c.buffer})
  {
    assert Owned(s, c.buffer);
  }

  lemma DestroyPoolAccounts(s: Shm, c: Call, singles: set<nat>)
    requires DistinctBuffers(s.pools) && ListsAccount(s, singles)
    requires Possible(s, c) && c.DestroyPool? && Handle(s, c).Some?
    ensures ListsAccount(Handle(s, c).value, singles)
  {
    var t := Handle(s, c).value;
    var k := PoolIndex(s.pools, c.pool);
    forall i, b | 0 <= i < |t.pools| && b in t.pools[i].buffers
      ensures b in t.buffers <==> b !in singles
    {
      var j := if i < k then i else i + 1;
      assert t.pools[i] == s.pools[j];
      assert b !in s.pools[k].buffers;
    }
  }

  lemma ListsAccountStays(s: Shm, c: Call, singles: set<nat>)
    requires Inv(s) && Possible(s, c) && Handle(s, c).Some? && ListsAccount(s, singles)
    ensures ListsAccount(Handle(s, c).value, singles + Singles([c]))
  {
    SinglesOfOne(c);
    assert singles + {} == singles;
    match c
    case CreatePool(_, _, _, _, _) => CreatePoolAccounts(s, c, singles);
    case CreateBuffer(_, _, _, _) => CreateBufferAccounts(s, c, singles);
    case DestroyBuffer(_) => DestroyBufferAccounts(s, c, singles);
    case DestroyPool(_) => DestroyPoolAccounts(s, c, singles);
  }

  lemma SinglesSplit(calls: seq<Call>)
    requires calls != []
    ensures Singles(calls) == Singles([calls[0]]) + Singles(calls[1..])
  {
    assert forall c :: c in calls <==> c in [calls[0]] || c in calls[1..] by {
      assert calls == [calls[0]] + calls[1..];
    }
  }

  lemma InSingles(calls: seq<Call>, b: nat)
    ensures b in Singles(calls) <==> DestroyBuffer(b) in calls
  {
    if DestroyBuffer(b) in calls { assert DestroyBuffer(b).buffer == b; }
  }

  lemma {:induction false} ListsAccountRun(s: Shm, calls: seq<Call>, singles: set<nat>)
    requires Inv(s) && ValidRun(s, calls) && ListsAccount(s, singles)
    ensures ListsAccount(Run(s, calls), singles + Singles(calls))
    decreases |calls|
  {
    if calls == [] {
      assert singles + Singles(calls) == singles;
    } else {
      var c, rest := calls[0], calls[1..];
      var t := Handle(s, c).value;
      InvStays(s, c);
      ListsAccountStays(s, c, singles);
      ListsAccountRun(t, rest, singles + Singles([c]));
      SinglesSplit(calls);
      assert singles + Singles(calls) == (singles + Singles([c])) + Singles(rest);
    }
  }

  /** Because destroying a buffer leaves it in its pool's list, tearing the pool down is
      sound exactly when none of its buffers was destroyed on its own before. */
  lemma TeardownSoundExactlyWhen(calls: seq<Call>, pool: nat)
    requires ValidRun(Empty, calls) && HasPool(Run(Empty, calls).pools, pool)
    ensures var s := Run(Empty, calls);
            var list := s.pools[PoolIndex(s.pools, pool)].buffers;
            Handle(s, DestroyPool(pool)).Some? <==> (forall b :: b in list ==> DestroyBuffer(b) !in calls)
  {
    RunInv(Empty, calls);
    ListsAccountRun(Empty, calls, {});
    var s := Run(Empty, calls);
    var list := s.pools[PoolIndex(s.pools, pool)].buffers;
    forall b | b in list
      ensures b in s.buffers <==> DestroyBuffer(b) !in calls
    {
      InSingles(calls, b);
    }
    assert Handle(s, DestroyPool(pool)).Some? <==> WalkIsSafe(s, list);
  }

  /** An accepted create_buffer is sound exactly when the pool's newest listed buffer, if
      there is one, was not destroyed on its own. */
  lemma InsertSoundExactlyWhen(calls: seq<Call>, pool: nat, r: Request)
    requires ValidRun(Empty, calls) && HasPool(Run(Empty, calls).pools, pool)
    requires Check(Run(Empty, calls).pools[PoolIndex(Run(Empty, calls).pools, pool)].size, r).Accepted?
    ensures var s := Run(Empty, calls);
            var list := s.pools[PoolIndex(s.pools, pool)].buffers;
            Handle(s, CreateBuffer(pool, r, true, true)).Some? <==> (list == [] || DestroyBuffer(list[0]) !in calls)
  {
    RunInv(Empty, calls);
    ListsAccountRun(Empty, calls, {});
    var s := Run(Empty, calls);
    var list := s.pools[PoolIndex(s.pools, pool)].buffers;
    if list != [] {
      assert list[0] in list;
      InSingles(calls, list[0]);
    }
  }

  const SomeBuffer: Request := Request(0, 16, 16, 64, ARGB8888)

  lemma SomeBufferAccepted()
    ensures Check(4096, SomeBuffer).Accepted?
  {
    RequiredSizeExact(0, 16, 64);
    assert WrapInt(64) == 64;
  }

  /** A pool with one buffer that its client has destroyed. */
  function OneDestroyed(): seq<Call> {
    [CreatePool(3, 4096, true, Some(1), true), CreateBuffer(0, SomeBuffer, true, true), DestroyBuffer(1)]
  }

  lemma OneDestroyedRuns()
    ensures ValidRun(Empty, OneDestroyed())
    ensures Run(Empty, OneDestroyed())
         == Shm([Pool(0, 3, 4096, 1, [1])], map[], 2, [3], [], [1], [])
  {
    SomeBufferAccepted();
    var calls := OneDestroyed();
    var s1 := Shm([Pool(0, 3, 4096, 1, [])], map[], 1, [3], [], [1], []);
    var pool := Pool(0, 3, 4096, 1, []);
    var t := Handle(Empty, calls[0]).value;
    assert t.pools == [pool] && t.received == [3] && t.mapped == [1];
    assert t == s1;
    assert PoolIndex(s1.pools, 0) == 0 && [1] + [] == [1];
    var s2 := Handle(s1, calls[1]).value;
    assert s2.pools == [Pool(0, 3, 4096, 1, [1])] && s2.buffers.Keys == {1};
    var s3 := Handle(s2, calls[2]).value;
    assert s3.buffers == map[];
    assert calls[1..] == [calls[1], calls[2]] && calls[1..][1..] == [calls[2]] && [calls[2]][1..] == [];
    assert ValidRun(s3, []) && ValidRun(s2, [calls[2]]) && ValidRun(s1, calls[1..]);
  }

  /** Both unsound requests at a concrete input: after create_pool, create_buffer and
      destroying that buffer, neither the pool's teardown nor another create_buffer is
      sound. */
  lemma DestroyedBufferIsTouched()
    ensures ValidRun(Empty, OneDestroyed())
    ensures var s := Run(Empty, OneDestroyed());
            && Possible(s, DestroyPool(0)) && Handle(s, DestroyPool(0)).None?
            && Possible(s, CreateBuffer(0, SomeBuffer, true, true))
            && Handle(s, CreateBuffer(0, SomeBuffer, true, true)).None?
  {
    OneDestroyedRuns();
    SomeBufferAccepted();
    assert PoolIndex([Pool(0, 3, 4096, 1, [1])], 0) == 0;
    assert 1 in [1];
  }
}
