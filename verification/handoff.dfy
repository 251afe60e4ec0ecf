/** Handing a buffer to the renderer: the record built on attach, the D-Bus signal that
    carries it and the handler that takes it apart (src/wayland/compositor_surface.c,
    src/dbus-server/modules/buffer_module.c, test-renderer/src/buffer_mgr.c). */
module Handoff {
  import opened Options
  import opened ShmSizes

  datatype BufferType = BufferShm | BufferDmaBuf | BufferEgl

  datatype BufferInfo = BufferInfo(
    width: uint32, height: uint32, stride: uint32, format: uint32,
    formatStr: Option<string>, size: nat, kind: BufferType, fd: int)

  /** A D-Bus argument. A descriptor travels as the open file it refers to. */
  datatype Arg = U32(n: uint32) | Str(s: string) | Fd(file: nat) | OtherArg

  datatype TopArg = Struct(fields: seq<Arg>) | NoStruct

  /** `update` says whether this is the Updated signal of the buffer interface. */
  datatype Message = Message(update: bool, args: seq<TopArg>)

  function TypeName(kind: BufferType): string {
    match kind
    case BufferShm => "SHM"
    case BufferEgl => "EGL"
    case BufferDmaBuf => "DMA-BUF"
  }

  /** The record surface_headless_attach builds: the stride is announced as four bytes a
      pixel, whatever the client's stride, and there is no offset. */
  function Attach(width: uint32, height: uint32, kind: BufferType, size: nat, fd: int): BufferInfo {
    BufferInfo(width, height, (width * 4) % TWO32, if kind.BufferShm? then XRGB8888 else 0,
               Some(TypeName(kind)), size, kind, fd)
  }

  // ----- Encoder -----

  function Encoded(info: BufferInfo, files: map<int, nat>): seq<Arg> {
    [U32(info.width), U32(info.height), U32(info.stride), U32(info.format), Str(TypeName(info.kind)),
     Str(if info.formatStr.Some? then info.formatStr.value else "")]
    + if info.fd in files then [Fd(files[info.fd])] else []
  }

  /** buffer_module_send_update_signal. `created` and `queued` are the outcomes of
      dbus_message_new_signal and dbus_connection_send. `files` are the sender's open
      descriptors: libdbus duplicates the descriptor and appends nothing when that fails. */
  method SendUpdateSignal(connected: bool, info: Option<BufferInfo>, created: bool, queued: bool, files: map<int, nat>)
    returns (sent: Option<Message>)
    ensures sent == if connected && info.Some? && created && queued
                    then Some(Message(true, [Struct(Encoded(info.value, files))])) else None
  {
    if !connected || info.None? {
      return None;
    }
    if !created {
      return None;
    }
    var i := info.value;
    var typeStr := "UNKNOWN";
    match i.kind {
      case BufferShm => typeStr := "SHM";
      case BufferEgl => typeStr := "EGL";
      case BufferDmaBuf => typeStr := "DMA-BUF";
    }
    var fields: seq<Arg> := [];
    fields := fields + [U32(i.width)];
    fields := fields + [U32(i.height)];
    fields := fields + [U32(i.stride)];
    fields := fields + [U32(i.format)];
    fields := fields + [Str(typeStr)];
    var formatStr := if i.formatStr.Some? then i.formatStr.value else "";
    fields := fields + [Str(formatStr)];
    if i.fd in files {
      fields := fields + [Fd(files[i.fd])];
    }
    assert fields == Encoded(i, files);
    if !queued {
      return None;
    }
    return Some(Message(true, [Struct(fields)]));
  }

  // ----- Decoder -----

  datatype Kind = WantU32 | WantStr | WantFd

  predicate Fits(a: Arg, k: Kind) {
    match k
    case WantU32 => a.U32?
    case WantStr => a.Str?
    case WantFd => a.Fd?
  }

  /** The fields in the order the handler asks for them. */
  const Wanted: seq<Kind> := [WantU32, WantU32, WantU32, WantU32, WantStr, WantStr, WantFd]

  /** For each wanted field the argument it is assigned from, or None where it keeps its
      default: a field takes the next argument exactly when the type fits. */
  function Assign(args: seq<Arg>, wanted: seq<Kind>): (r: seq<Option<Arg>>)
    ensures |r| == |wanted|
    decreases |wanted|
  {
    if wanted == [] then []
    else if args != [] && Fits(args[0], wanted[0]) then [Some(args[0])] + Assign(args[1..], wanted[1..])
    else [None] + Assign(args, wanted[1..])
  }

  function Present(r: seq<Option<Arg>>): seq<Arg> {
    if r == [] then [] else (if r[0].Some? then [r[0].value] else []) + Present(r[1..])
  }

  /** How far in the struct the iterator stands when it comes to the k-th field. */
  function Consumed(r: seq<Option<Arg>>, k: nat): nat
    requires k <= |r|
  {
    |Present(r[..k])|
  }

  lemma ConsumedStep(r: seq<Option<Arg>>, k: nat)
    requires 1 <= k <= |r|
    ensures Consumed(r, k) == (if r[0].Some? then 1 else 0) + Consumed(r[1..], k - 1)
  {
    assert r[..k][1..] == r[1..][..k - 1];
  }

  /** On any struct at all: the assigned arguments are a prefix of the struct, in order, so
      nothing is read past its end and nothing is skipped; each is of its field's type;
      and a field is left out only when the argument in turn is missing or does not fit. */
  lemma {:induction false} AssignSound(args: seq<Arg>, wanted: seq<Kind>)
    ensures var r := Assign(args, wanted);
      && Present(r) <= args
      && (forall k :: 0 <= k < |wanted| && r[k].Some? ==> Fits(r[k].value, wanted[k]))
      && (forall k :: 0 <= k < |wanted| && r[k].None? ==>
            Consumed(r, k) >= |args| || !Fits(args[Consumed(r, k)], wanted[k]))
    decreases |wanted|
  {
    if wanted != [] {
      var r := Assign(args, wanted);
      var rest := if r[0].Some? then args[1..] else args;
      AssignSound(rest, wanted[1..]);
      assert r[1..] == Assign(rest, wanted[1..]);
      forall k | 1 <= k < |wanted|
        ensures r[k] == r[1..][k - 1] && wanted[k] == wanted[1..][k - 1]
        ensures Consumed(r, k) == (if r[0].Some? then 1 else 0) + Consumed(r[1..], k - 1)
      {
        ConsumedStep(r, k);
      }
    }
  }

  datatype Fields = Fields(width: uint32, height: uint32, stride: uint32, format: uint32,
                           typeStr: Option<string>, formatStr: Option<string>, file: Option<nat>)

  function NumberOr0(a: Option<Arg>): uint32 {
    if a.Some? && a.value.U32? then a.value.n else 0
  }

  function StringOf(a: Option<Arg>): Option<string> {
    if a.Some? && a.value.Str? then Some(a.value.s) else None
  }

  function FileOf(a: Option<Arg>): Option<nat> {
    if a.Some? && a.value.Fd? then Some(a.value.file) else None
  }

  function Decoded(args: seq<Arg>): Fields {
    var r := Assign(args, Wanted);
    Fields(NumberOr0(r[0]), NumberOr0(r[1]), NumberOr0(r[2]), NumberOr0(r[3]),
           StringOf(r[4]), StringOf(r[5]), FileOf(r[6]))
  }

  datatype Outcome = NotYetHandled | Ignored | Update(fields: Fields)

  function Handled(m: Message): Outcome {
    if !m.update then NotYetHandled
    else if m.args == [] || m.args[0].NoStruct? then Ignored
    else Update(Decoded(m.args[0].fields))
  }

  /** The fields before this point were assigned `got`, and the iterator stands at `at`. */
  ghost predicate Asked(args: seq<Arg>, wanted: seq<Kind>, got: seq<Option<Arg>>, at: nat) {
    && at <= |args| && |got| <= |wanted|
    && Assign(args, wanted) == got + Assign(args[at..], wanted[|got|..])
  }

  lemma AskedNext(args: seq<Arg>, wanted: seq<Kind>, got: seq<Option<Arg>>, at: nat)
    requires Asked(args, wanted, got, at) && |got| < |wanted|
    ensures if at < |args| && Fits(args[at], wanted[|got|])
            then Asked(args, wanted, got + [Some(args[at])], at + 1)
            else Asked(args, wanted, got + [None], at)
  {
    assert wanted[|got|..][0] == wanted[|got|] && wanted[|got|..][1..] == wanted[|got| + 1..];
    if at < |args| { assert args[at..][0] == args[at] && args[at..][1..] == args[at + 1..]; }
  }

  /** One step of the iterator: get_arg_type, get_basic, next. */
  method TakeField(args: seq<Arg>, at: nat, want: Kind, ghost wanted: seq<Kind>, ghost got: seq<Option<Arg>>)
    returns (value: Option<Arg>, next: nat)
    requires Asked(args, wanted, got, at) && |got| < |wanted| && want == wanted[|got|]
    ensures Asked(args, wanted, got + [value], next)
  {
    AskedNext(args, wanted, got, at);
    value, next := None, at;
    if at < |args| && Fits(args[at], want) {
      value := Some(args[at]);
      next := at + 1;
    }
  }

  lemma AskedAll(args: seq<Arg>, numbers: seq<Option<Arg>>, rest: seq<Option<Arg>>, at: nat)
    requires |numbers| == 4 && |rest| == 3 && Asked(args, Wanted, numbers + rest, at)
    ensures Decoded(args) == Fields(NumberOr0(numbers[0]), NumberOr0(numbers[1]),
                                    NumberOr0(numbers[2]), NumberOr0(numbers[3]),
                                    StringOf(rest[0]), StringOf(rest[1]), FileOf(rest[2]))
  {
    assert Wanted[|numbers + rest|..] == [];
    assert Assign(args, Wanted) == numbers + rest;
  }

  /** The four numbers a structure starts with. */
  method TakeNumbers(args: seq<Arg>, ghost wanted: seq<Kind>)
    returns (width: Option<Arg>, height: Option<Arg>, stride: Option<Arg>, format: Option<Arg>, next: nat)
    requires 4 <= |wanted| && forall k :: 0 <= k < 4 ==> wanted[k] == WantU32
    ensures Asked(args, wanted, [] + [width] + [height] + [stride] + [format], next)
  {
    AskedFirst(args, wanted);
    width, next := TakeField(args, 0, WantU32, wanted, []);
    ghost var one := [] + [width];
    height, next := TakeField(args, next, WantU32, wanted, one);
    ghost var two := one + [height];
    stride, next := TakeField(args, next, WantU32, wanted, two);
    ghost var three := two + [stride];
    format, next := TakeField(args, next, WantU32, wanted, three);
  }

  lemma AskedFirst(args: seq<Arg>, wanted: seq<Kind>)
    ensures Asked(args, wanted, [], 0)
  {
    assert args[0..] == args && wanted[0..] == wanted && [] + Assign(args, wanted) == Assign(args, wanted);
  }

  /** message_handler from entering the structure up to the call that maps the file. */
  method DecodeStruct(args: seq<Arg>) returns (fields: Fields)
    ensures fields == Decoded(args)
  {
    var width, height, stride, format, next := TakeNumbers(args, Wanted);
    ghost var numbers := [] + [width] + [height] + [stride] + [format];
    var typeStr, formatStr, file;
    typeStr, next := TakeField(args, next, WantStr, Wanted, numbers);
    formatStr, next := TakeField(args, next, WantStr, Wanted, numbers + [typeStr]);
    file, next := TakeField(args, next, WantFd, Wanted, numbers + [typeStr] + [formatStr]);
    assert numbers + [typeStr] + [formatStr] + [file] == numbers + [typeStr, formatStr, file];
    AskedAll(args, numbers, [typeStr, formatStr, file], next);
    return Fields(NumberOr0(width), NumberOr0(height), NumberOr0(stride), NumberOr0(format),
                  StringOf(typeStr), StringOf(formatStr), FileOf(file));
  }

  /** message_handler: other messages are left to others, a first argument that is no
      structure is ignored. */
  method MessageHandler(m: Message) returns (outcome: Outcome)
    ensures outcome == Handled(m)
  {
    if !m.update {
      return NotYetHandled;
    }
    if m.args == [] {
      return Ignored;
    }
    if m.args[0].NoStruct? {
      return Ignored;
    }
    var fields := DecodeStruct(m.args[0].fields);
    return Update(fields);
  }

  // ----- Round trip -----

  lemma {:induction false} AssignAll(args: seq<Arg>, wanted: seq<Kind>)
    requires |args| <= |wanted| && forall k :: 0 <= k < |args| ==> Fits(args[k], wanted[k])
    ensures forall k :: 0 <= k < |wanted| ==>
      Assign(args, wanted)[k] == if k < |args| then Some(args[k]) else None
    decreases |wanted|
  {
    if wanted != [] {
      if args != [] {
        AssignAll(args[1..], wanted[1..]);
        assert Assign(args, wanted) == [Some(args[0])] + Assign(args[1..], wanted[1..]);
      } else {
        AssignAll(args, wanted[1..]);
        assert Assign(args, wanted) == [None] + Assign(args, wanted[1..]);
      }
    }
  }

  /** Decoding an encoded record gives back its numbers, its type name and its format name
      (an absent one as empty), and the open file exactly when the descriptor was open at
      the sender. */
  lemma SignalRoundTrip(info: BufferInfo, files: map<int, nat>)
    ensures Handled(Message(true, [Struct(Encoded(info, files))])) == Update(Fields(
      info.width, info.height, info.stride, info.format,
      Some(if info.kind.BufferShm? then "SHM" else if info.kind.BufferEgl? then "EGL" else "DMA-BUF"),
      Some(if info.formatStr.Some? then info.formatStr.value else ""),
      if info.fd in files then Some(files[info.fd]) else None))
  {
    var args := Encoded(info, files);
    AssignAll(args, Wanted);
  }

  /** Any struct that starts with the seven arguments in their order is read field by field,
      whatever follows. */
  lemma DecodedInOrder(f: Fields, more: seq<Arg>)
    requires f.typeStr.Some? && f.formatStr.Some? && f.file.Some?
    ensures Decoded([U32(f.width), U32(f.height), U32(f.stride), U32(f.format),
                     Str(f.typeStr.value), Str(f.formatStr.value), Fd(f.file.value)] + more) == f
  {
    var args := [U32(f.width), U32(f.height), U32(f.stride), U32(f.format),
                 Str(f.typeStr.value), Str(f.formatStr.value), Fd(f.file.value)];
    AssignPrefix(args, more, Wanted);
    AssignAll(args, Wanted);
  }

  lemma {:induction false} AssignPrefix(args: seq<Arg>, more: seq<Arg>, wanted: seq<Kind>)
    requires |args| == |wanted| && forall k :: 0 <= k < |args| ==> Fits(args[k], wanted[k])
    ensures Assign(args + more, wanted) == Assign(args, wanted)
    decreases |wanted|
  {
    if wanted != [] {
      assert (args + more)[1..] == args[1..] + more;
      AssignPrefix(args[1..], more, wanted[1..]);
    }
  }

  /** A struct without arguments leaves every field at its default, and no file. */
  lemma DefaultsOfEmpty()
    ensures Handled(Message(true, [Struct([])])) == Update(Fields(0, 0, 0, 0, None, None, None))
  {
    AssignAll([], Wanted);
  }
}
