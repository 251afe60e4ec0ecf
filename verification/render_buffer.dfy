/** The renderer's buffer: mapping the file of each update and releasing it again, over
    any run of updates and the final cleanup (test-renderer/src/buffer_mgr.c). */
module RenderBuffers {
  import opened Options
  import opened ShmSizes

  /** The frame a renderer shows, with the record of the kernel calls made so far. */
  datatype Renderer = Renderer(
    data: nat,                 // 0 is the null pointer
    size: nat,
    width: uint32, height: uint32, stride: uint32,
    fd: int,
    mmaped: bool,
    dirty: bool,
    live: map<nat, nat>,       // address to length of the mappings that exist
    acquired: seq<nat>,        // addresses mmap returned
    released: seq<nat>,        // addresses given back to munmap
    freed: seq<nat>,           // addresses given to free
    closedFds: seq<int>
  )

  /** create_buffermgr_thread: everything zero, so the descriptor is 0 as well. */
  const Fresh: Renderer := Renderer(0, 0, 0, 0, 0, 0, false, false, map[], [], [], [], [])

  /** An update with the results of fstat and mmap. */
  datatype Update = Update(width: uint32, height: uint32, stride: uint32, fd: int,
                           fileSize: Option<nat>, mapping: Option<nat>)

  /** The kernel: fstat refuses what is no descriptor; a new mapping has a length, an
      address other than null, and is disjoint from the mappings that exist. */
  predicate Possible(s: Renderer, u: Update) {
    && (u.fd < 0 ==> u.fileSize.None?)
    && (u.mapping.Some? ==>
          u.mapping.value != 0 && u.mapping.value !in s.live && u.fileSize.Some? && 0 < u.fileSize.value)
  }

  function Munmap(s: Renderer, addr: nat, length: nat): Renderer {
    if addr in s.live && s.live[addr] == length
    then s.(live := s.live - {addr}, released := s.released + [addr]) else s
  }

  /** Gives the previous data back, by munmap or by free. */
  function Drop(s: Renderer): Renderer {
    if s.mmaped && s.data != 0 then Munmap(s, s.data, s.size).(mmaped := false, data := 0)
    else if s.data != 0 then s.(freed := s.freed + [s.data], data := 0)
    else s
  }

  predicate Succeeds(u: Update) {
    u.fileSize.Some? && u.mapping.Some?
  }

  /** mmap succeeded. */
  function Mapped(s: Renderer, addr: nat, length: nat): Renderer {
    s.(live := s.live[addr := length], acquired := s.acquired + [addr])
  }

  function Install(s: Renderer, u: Update, addr: nat, length: nat): Renderer {
    s.(data := addr, size := length, width := u.width, height := u.height, stride := u.stride,
       fd := u.fd, mmaped := true, dirty := true)
  }

  /** The state after an update: the new file is mapped before the old data is dropped. */
  function Apply(s: Renderer, u: Update): Renderer {
    if !Succeeds(u) then s
    else Install(Drop(Mapped(s, u.mapping.value, u.fileSize.value)), u, u.mapping.value, u.fileSize.value)
  }

  function CleanUp(s: Renderer): Renderer {
    var t :=
      if s.mmaped && s.data != 0 then Munmap(s, s.data, s.size).(mmaped := false)
      else if s.data != 0 then s.(freed := s.freed + [s.data])
      else s;
    if s.fd >= 0 then t.(closedFds := t.closedFds + [s.fd]) else t
  }

  /** The buffer owns one mapping, described by its fields, or none. */
  predicate Owns(s: Renderer) {
    && s.freed == []
    && (if s.data == 0 then !s.mmaped && s.live == map[] else s.mmaped && s.live == map[s.data := s.size])
    && multiset(s.acquired) == multiset(s.released) + (if s.data == 0 then multiset{} else multiset{s.data})
  }

  lemma ApplyKeeps(s: Renderer, u: Update)
    requires Owns(s) && Possible(s, u)
    ensures Owns(Apply(s, u))
  {
    if Succeeds(u) {
      var addr, length := u.mapping.value, u.fileSize.value;
      if s.data != 0 {
        assert s.live[addr := length] - {s.data} == map[addr := length];
      }
      assert s.data == 0 ==> s.live[addr := length] == map[addr := length];
    }
  }

  predicate ValidRun(s: Renderer, us: seq<Update>)
    decreases |us|
  {
    us == [] || (Possible(s, us[0]) && ValidRun(Apply(s, us[0]), us[1..]))
  }

  function Run(s: Renderer, us: seq<Update>): Renderer
    decreases |us|
  {
    if us == [] then s else Run(Apply(s, us[0]), us[1..])
  }

  lemma {:induction false} RunKeeps(s: Renderer, us: seq<Update>)
    requires Owns(s) && ValidRun(s, us)
    ensures Owns(Run(s, us)) && Run(s, us).closedFds == s.closedFds
    decreases |us|
  {
    if us != [] {
      ApplyKeeps(s, us[0]);
      RunKeeps(Apply(s, us[0]), us[1..]);
    }
  }

  /** Over any run of updates, successful or not, at most one mapping exists between them
      and the buffer's fields describe it; every mapping made so far and not in use has
      been released once; and after cleanup none is left and each was released once. */
  lemma MappingsReleasedOnce(us: seq<Update>)
    requires ValidRun(Fresh, us)
    ensures var s := Run(Fresh, us);
            var c := CleanUp(s);
            && |s.live| <= 1
            && (s.data != 0 ==> s.live == map[s.data := s.size])
            && multiset(s.acquired) == multiset(s.released) + (if s.data == 0 then multiset{} else multiset{s.data})
            && c.live == map[] && multiset(c.acquired) == multiset(c.released) && c.freed == []
  {
    RunKeeps(Fresh, us);
    var s := Run(Fresh, us);
    if s.data != 0 {
      assert s.live - {s.data} == map[];
    }
  }

  /** The frame shown is that of the last update that succeeded. */
  function LastSuccess(us: seq<Update>): (u: Option<Update>)
    ensures u.Some? ==> Succeeds(u.value)
  {
    if us == [] then None
    else if Succeeds(us[|us| - 1]) then Some(us[|us| - 1])
    else LastSuccess(us[..|us| - 1])
  }

  lemma {:induction false} RunSnoc(s: Renderer, us: seq<Update>, u: Update)
    ensures Run(s, us + [u]) == Apply(Run(s, us), u)
    decreases |us|
  {
    if us == [] {
      assert us + [u] == [u] && [u][1..] == [];
    } else {
      assert (us + [u])[1..] == us[1..] + [u];
      RunSnoc(Apply(s, us[0]), us[1..], u);
    }
  }

  /** A failed update changes nothing, so the buffer always describes the last successful
      one. Of all descriptors received, cleanup closes only that last one; without any
      success it closes descriptor 0, which the renderer never received. */
  lemma {:induction false} LastFrameStands(us: seq<Update>)
    ensures var s := Run(Fresh, us);
            && s.closedFds == []
            && match LastSuccess(us)
               case None => s == Fresh && CleanUp(s).closedFds == [0]
               case Some(u) =>
                 && s.data == u.mapping.value && s.size == u.fileSize.value && s.dirty
                 && s.width == u.width && s.height == u.height && s.stride == u.stride && s.fd == u.fd
                 && CleanUp(s).closedFds == (if u.fd >= 0 then [u.fd] else [])
    decreases |us|
  {
    if us != [] {
      var front, u := us[..|us| - 1], us[|us| - 1];
      LastFrameStands(front);
      RunSnoc(Fresh, front, u);
      assert us == front + [u];
    }
  }

  /** The descriptors that came with a run of updates. */
  function Received(us: seq<Update>): seq<int> {
    if us == [] then []
    else Received(us[..|us| - 1]) + if us[|us| - 1].fd >= 0 then [us[|us| - 1].fd] else []
  }

  lemma {:induction false} LastSuccessReceived(s: Renderer, us: seq<Update>)
    requires ValidRun(s, us) && LastSuccess(us).Some?
    ensures LastSuccess(us).value.fd >= 0 && LastSuccess(us).value.fd in Received(us)
    decreases |us|
  {
    var front, u := us[..|us| - 1], us[|us| - 1];
    LastPossible(s, us);
    if !Succeeds(u) { LastSuccessReceived(s, front); }
  }

  lemma {:induction false} LastPossible(s: Renderer, us: seq<Update>)
    requires ValidRun(s, us) && us != []
    ensures ValidRun(s, us[..|us| - 1]) && Possible(Run(s, us[..|us| - 1]), us[|us| - 1])
    decreases |us|
  {
    var front := us[..|us| - 1];
    if |us| > 1 {
      LastPossible(Apply(s, us[0]), us[1..]);
      assert us[1..][..|us| - 2] == front[1..] && us[1..][|us| - 2] == us[|us| - 1];
    }
  }

  /** The descriptors closed by the end are the ones received exactly when one was received
      and it is in use, or is descriptor 0 and none ever came into use. */
  lemma DescriptorsClosedExactlyWhen(us: seq<Update>)
    requires ValidRun(Fresh, us)
    ensures multiset(CleanUp(Run(Fresh, us)).closedFds) == multiset(Received(us))
       <==> |Received(us)| == 1 && (LastSuccess(us).Some? || Received(us)[0] == 0)
  {
    LastFrameStands(us);
    var closed := CleanUp(Run(Fresh, us)).closedFds;
    if LastSuccess(us).Some? {
      LastSuccessReceived(Fresh, us);
    }
    assert |closed| == 1;
    if multiset(closed) == multiset(Received(us)) {
      assert |multiset(closed)| == 1 == |multiset(Received(us))|;
      assert closed[0] in multiset(Received(us));
    } else if |Received(us)| == 1 {
      assert Received(us) == [Received(us)[0]];
    }
  }

  /** Two updates that succeed: the first descriptor stays open. */
  lemma FirstDescriptorStaysOpen()
    ensures var us := [Update(1, 1, 4, 5, Some(4096), Some(1)), Update(1, 1, 4, 6, Some(4096), Some(2))];
            && ValidRun(Fresh, us) && Received(us) == [5, 6] && CleanUp(Run(Fresh, us)).closedFds == [6]
  {
    var u, v := Update(1, 1, 4, 5, Some(4096), Some(1)), Update(1, 1, 4, 6, Some(4096), Some(2));
    var us := [u, v];
    assert us[1..] == [v] && [v][1..] == [] && us[..1] == [u] && [u][..0] == [];
    assert ValidRun(Fresh, us) by {
      assert Possible(Fresh, u);
      assert Apply(Fresh, u).live.Keys == {1};
      assert Possible(Apply(Fresh, u), v);
      assert ValidRun(Apply(Apply(Fresh, u), v), []);
      assert ValidRun(Apply(Fresh, u), [v]);
    }
    LastFrameStands(us);
  }

  /** The coincidence with descriptor 0: one update that failed, and its descriptor closed. */
  lemma FailedZeroIsClosed()
    ensures var us := [Update(1, 1, 4, 0, None, None)];
            && ValidRun(Fresh, us) && LastSuccess(us).None?
            && CleanUp(Run(Fresh, us)).closedFds == Received(us) == [0]
  {
    var us := [Update(1, 1, 4, 0, None, None)];
    assert us[..0] == [] && us[1..] == [];
    LastFrameStands(us);
  }

  /** The same as an object, updated field by field. */
  class BufferManager {
    var data: nat
    var size: nat
    var width: uint32
    var height: uint32
    var stride: uint32
    var fd: int
    var mmaped: bool
    var dirty: bool
    var live: map<nat, nat>
    var acquired: seq<nat>
    var released: seq<nat>
    var freed: seq<nat>
    var closedFds: seq<int>

    function View(): Renderer
      reads this
    {
      Renderer(data, size, width, height, stride, fd, mmaped, dirty, live, acquired, released, freed, closedFds)
    }

    constructor ()
      ensures View() == Fresh
    {
      data, size, width, height, stride, fd := 0, 0, 0, 0, 0, 0;
      mmaped, dirty := false, false;
      live, acquired, released, freed, closedFds := map[], [], [], [], [];
    }

    method Unmap(addr: nat, length: nat)
      modifies this`live, this`released
      ensures View() == Munmap(old(View()), addr, length)
    {
      if addr in live && live[addr] == length {
        live := live - {addr};
        released := released + [addr];
      }
    }

    method DropPrevious()
      modifies this
      ensures View() == Drop(old(View()))
    {
      if mmaped && data != 0 {
        Unmap(data, size);
        mmaped := false;
        data := 0;
      } else if data != 0 && !mmaped {
        freed := freed + [data];
        data := 0;
      }
    }

    method InstallFields(u: Update, addr: nat, length: nat)
      modifies this
      ensures View() == Install(old(View()), u, addr, length)
    {
      data := addr;
      size := length;
      width := u.width;
      height := u.height;
      stride := u.stride;
      fd := u.fd;
      mmaped := true;
      dirty := true;
    }

    method Map(addr: nat, length: nat)
      modifies this`live, this`acquired
      ensures View() == Mapped(old(View()), addr, length)
    {
      live := live[addr := length];
      acquired := acquired + [addr];
    }

    /** update_buffer_from_fd. */
    method UpdateFromFd(u: Update)
      requires Possible(View(), u)
      modifies this
      ensures View() == Apply(old(View()), u)
    {
      if u.fileSize.None? {
        return;
      }
      if u.mapping.None? {
        return;
      }
      Map(u.mapping.value, u.fileSize.value);
      DropPrevious();
      InstallFields(u, u.mapping.value, u.fileSize.value);
    }

    /** cleanup_buffermgr, up to freeing the object itself. */
    method Cleanup()
      modifies this
      ensures View() == CleanUp(old(View()))
    {
      if mmaped && data != 0 {
        Unmap(data, size);
        mmaped := false;
      } else if data != 0 && !mmaped {
        freed := freed + [data];
      }
      if fd >= 0 {
        closedFds := closedFds + [fd];
      }
    }
  }
}
