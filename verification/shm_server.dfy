/** The shared-memory request handlers, updating the server's pools and buffers in place
    (src/wayland/shm.c). */
module ShmServer {
  import opened Options
  import opened ShmSizes
  import opened ShmResources

  class Server {
    var pools: seq<Pool>
    var buffers: map<nat, Buffer>
    var nextId: nat
    var received: seq<int>
    var closed: seq<int>
    var mapped: seq<nat>
    var unmapped: seq<nat>
    var sound: bool   // no freed buffer has been touched

    function State(): Shm
      reads this
    {
      Shm(pools, buffers, nextId, received, closed, mapped, unmapped)
    }

    /** A request took effect: soundly with the outcome `after`, or else by touching freed
        memory, from where nothing is promised. */
    predicate Took(after: Option<Shm>)
      reads this
    {
      (sound <==> after.Some?) && (after.Some? ==> State() == after.value)
    }

    constructor ()
      ensures sound && State() == Empty
    {
      pools, buffers, nextId := [], map[], 0;
      received, closed, mapped, unmapped := [], [], [], [];
      sound := true;
    }

    /** close() of the kernel: an invalid descriptor is refused without effect. */
    method Close(fd: int)
      modifies this`closed
      ensures closed == if fd >= 0 then old(closed) + [fd] else old(closed)
    {
      if fd >= 0 {
        closed := closed + [fd];
      }
    }

    /** shm_create_pool. The last three arguments are the outcomes of calloc, mmap and
        wl_resource_create. */
    method CreatePool(fd: int, size: int32, memory: bool, mapping: Option<nat>, resource: bool)
      requires sound && Possible(State(), ShmResources.CreatePool(fd, size, memory, mapping, resource))
      modifies this
      ensures Took(Handle(old(State()), ShmResources.CreatePool(fd, size, memory, mapping, resource)))
    {
      if fd >= 0 {
        received := received + [fd];
      }
      if size <= 0 {
        Close(fd);
        return;
      }
      if fd < 0 {
        return;
      }
      if !memory {
        Close(fd);
        return;
      }
      if mapping.None? {
        Close(fd);
        return;
      }
      mapped := mapped + [mapping.value];
      if !resource {
        unmapped := unmapped + [mapping.value];
        Close(fd);
        return;
      }
      pools := [Pool(nextId, fd, size, mapping.value, [])] + pools;
      nextId := nextId + 1;
    }

    /** The checks of shm_pool_create_buffer on a pool of this size. */
    method CheckRequest(size: nat, r: Request) returns (verdict: Verdict)
      ensures verdict == Check(size, r)
    {
      if r.offset < 0 || r.offset >= size {
        return BadOffset;
      }
      if r.width <= 0 || r.height <= 0 {
        return BadExtent;
      }
      var minStride := WrapInt(r.width * 4);
      if r.stride < minStride {
        return StrideTooSmall;
      }
      var required := RequiredSize(r.offset, r.height, r.stride);
      if required > size {
        return ExceedsPool;
      }
      if !CheckFormat(r.format) {
        return BadFormat;
      }
      return Accepted;
    }

    /** shm_pool_create_buffer, with the outcomes of wl_resource_create and calloc. The
        insertion writes to the buffer that was first in the list, freed or not. */
    method CreateBuffer(pool: nat, r: Request, resource: bool, memory: bool) returns (verdict: Verdict)
      requires sound && Possible(State(), ShmResources.CreateBuffer(pool, r, resource, memory))
      modifies this
      ensures Took(Handle(old(State()), ShmResources.CreateBuffer(pool, r, resource, memory)))
      ensures verdict == Check(old(pools)[PoolIndex(old(pools), pool)].size, r)
    {
      var i := PoolIndex(pools, pool);
      var p := pools[i];
      verdict := CheckRequest(p.size, r);
      if verdict != Accepted || !resource || !memory {
        return;
      }
      if p.buffers != [] && p.buffers[0] !in buffers {
        sound := false;
      }
      var b := nextId;
      nextId := nextId + 1;
      buffers := buffers[b := Buffer(p.fd, r, BufferSize(r), ToPixelFormat(r.format))];
      pools := pools[i := p.(buffers := [b] + p.buffers)];
    }

    /** shm_buffer_destructor: the buffer is freed and stays in its pool's list. */
    method DestroyBuffer(b: nat)
      requires sound && Possible(State(), ShmResources.DestroyBuffer(b))
      modifies this`buffers
      ensures Took(Handle(old(State()), ShmResources.DestroyBuffer(b)))
    {
      buffers := buffers - {b};
    }

    /** The loop of shm_pool_destructor: every listed buffer has its resource destroyed. */
    method DestroyListed(list: seq<nat>)
      requires forall i, j :: 0 <= i < j < |list| ==> list[i] != list[j]
      modifies this`buffers, this`sound
      ensures sound <==> old(sound) && forall b :: b in list ==> b in old(buffers)
      ensures sound ==> buffers == old(buffers) - (set b | b in list)
    {
      var n := 0;
      while n < |list|
        invariant n <= |list|
        invariant sound <==> old(sound) && forall b :: b in list[..n] ==> b in old(buffers)
        invariant buffers == old(buffers) - (set b | b in list[..n])
      {
        assert list[..n + 1] == list[..n] + [list[n]];
        assert list[n] !in list[..n];
        if list[n] !in buffers {
          sound := false;
        }
        buffers := buffers - {list[n]};
        n := n + 1;
      }
      assert list[..n] == list;
    }

    /** shm_pool_destructor: the listed buffers, the mapping and the descriptor, then the
        place in the server's list. Its requirements on the lists are invariants of every
        run. */
    method DestroyPool(pool: nat)
      requires sound && Possible(State(), ShmResources.DestroyPool(pool))
      requires DistinctBuffers(pools) && BelowNext(State())
      modifies this
      ensures Took(Handle(old(State()), ShmResources.DestroyPool(pool)))
    {
      var i := PoolIndex(pools, pool);
      var p := pools[i];
      DestroyListed(p.buffers);
      if p.data != 0 {
        unmapped := unmapped + [p.data];
      }
      if p.fd >= 0 {
        Close(p.fd);
      }
      pools := pools[..i] + pools[i + 1..];
    }
  }
}
