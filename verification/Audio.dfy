/**
 The codec callbacks of ado_ctrl.c: a heap-linked list that grows at its tail, is walked by the
 volume functions, and is released when the system is closed.  The capture and the playback system
 have the same code; an object of class System is either of them.
 */
module Audio {
  import opened Seqs

  const ENOENT := 2
  const EBUSY := 16
  const EINVAL := 22
  const MAX_VOLUME := 100

  /** A codec's function pointers, either of which may be null. */
  datatype Callback = Callback(setVolume: Option<nat>, getDbGain: Option<nat>)

  /** A configured codec: is its driver loaded, and which callbacks does its name stand for? */
  datatype Codec = Codec(present: bool, cb: Option<Callback>)

  datatype Call = SetVolumeCall(fn: nat, volume: nat) | GetDbGainCall(fn: nat, before: int, after: int)

  // ---------- what an operation does to the system ----------

  datatype State = Closed | Open(callbacks: seq<Option<Callback>>, volume: int)

  datatype Op =
    | Init(codecs: seq<Codec>)
    | Close
    | Register(cb: Option<Callback>)
    | SetVolume(volume: nat)
    | GetDbGain(before: int, after: int)

  predicate Known(c: Codec) { c.present && c.cb.Some? }

  function Initial(codecs: seq<Codec>): seq<Option<Callback>> { Map((c: Codec) => c.cb, Filter(Known, codecs)) }

  /** What registering the codecs returns: the result of the last one whose driver is loaded. */
  function CodecStatus(codecs: seq<Codec>): int {
    if codecs == [] then 0
    else
      var k := |codecs| - 1;
      if !codecs[k].present then CodecStatus(codecs[..k]) else if codecs[k].cb.Some? then 0 else -1
  }

  function Next(s: State, op: Op): State {
    match op
    case Init(codecs) => if s.Open? then s else Open(Initial(codecs), 0)
    case Close => Closed
    case Register(cb) => if s.Closed? || cb.None? then s else s.(callbacks := s.callbacks + [cb])
    case SetVolume(volume) => if s.Closed? || volume > MAX_VOLUME then s else s.(volume := volume)
    case GetDbGain(_, _) => s
  }

  // ---------- the calls ----------

  predicate HasSetter(cb: Option<Callback>) { cb.Some? && cb.value.setVolume.Some? }

  function SetterCall(volume: nat): Option<Callback> -> Call {
    (cb: Option<Callback>) => SetVolumeCall(if HasSetter(cb) then cb.value.setVolume.value else 0, volume)
  }

  /** One call for each available setter, in list order. */
  function SetterCalls(cbs: seq<Option<Callback>>, volume: nat): seq<Call> {
    Map(SetterCall(volume), Filter(HasSetter, cbs))
  }

  predicate HasProvider(cb: Option<Callback>) { cb.Some? && cb.value.getDbGain.Some? }

  /** The earliest gain provider. */
  function Provider(cbs: seq<Option<Callback>>): Option<nat> {
    var ps := Filter(HasProvider, cbs);
    if ps != [] && HasProvider(ps[0]) then ps[0].value.getDbGain else None
  }

  /** What the codecs' functions were asked so far; their answers may depend on all of it. */
  class Devices {
    var log: seq<Call>
    const reply: seq<Call> -> int
    const gain: seq<Call> -> real

    constructor (reply: seq<Call> -> int, gain: seq<Call> -> real)
      ensures log == [] && this.reply == reply && this.gain == gain
    {
      log, this.reply, this.gain := [], reply, gain;
    }

    method Set(fn: nat, volume: nat) returns (ret: int)
      modifies this
      ensures log == old(log) + [SetVolumeCall(fn, volume)] && ret == reply(log)
    {
      log := log + [SetVolumeCall(fn, volume)];
      ret := reply(log);
    }

    method Gain(fn: nat, before: int, after: int) returns (ret: int, dbGain: real)
      modifies this
      ensures log == old(log) + [GetDbGainCall(fn, before, after)] && ret == reply(log) && dbGain == gain(log)
    {
      log := log + [GetDbGainCall(fn, before, after)];
      ret, dbGain := reply(log), gain(log);
    }
  }

  // ---------- the list ----------

  class Node {
    var cb: Option<Callback>
    var next: Node?

    constructor (cb: Option<Callback>)
      ensures this.cb == cb && next == null
    {
      this.cb, next := cb, null;
    }
  }

  function At(nodes: seq<Node>, i: nat): Node? { if i < |nodes| then nodes[i] else null }

  predicate AllDifferent(nodes: seq<Node>) { forall i, j :: 0 <= i < j < |nodes| ==> nodes[i] != nodes[j] }

  class AdoAttr {
    var volume: int
    var cbList: Node?
    ghost var nodes: seq<Node>

    /** The list is `nodes`, in order, without cycles and ending in null. */
    ghost predicate Valid()
      reads this`cbList, this`nodes, nodes
    {
      && cbList == At(nodes, 0)
      && AllDifferent(nodes)
      && forall i {:trigger nodes[i].next} :: 0 <= i < |nodes| ==> nodes[i].next == At(nodes, i + 1)
    }

    ghost function Callbacks(): (r: seq<Option<Callback>>)
      reads this`nodes, nodes
      ensures |r| == |nodes|
    {
      var ns := nodes;
      seq(|ns|, i requires 0 <= i < |ns| reads ns => ns[i].cb)
    }

    constructor ()
      ensures Valid() && nodes == [] && volume == 0
    {
      volume, cbList, nodes := 0, null, [];
    }

    method RegCallback(cb: Option<Callback>) returns (ret: int)
      requires Valid()
      modifies this, nodes
      ensures Valid() && volume == old(volume)
      ensures cb.None? ==> ret == -EINVAL && nodes == old(nodes) && Callbacks() == old(Callbacks())
      ensures cb.Some? ==> ret == 0 && Callbacks() == old(Callbacks()) + [cb]
                           && |nodes| == |old(nodes)| + 1 && nodes[..|old(nodes)|] == old(nodes)
                           && fresh(nodes[|old(nodes)|])
    {
      if cb.None? {
        return -EINVAL;
      }
      var node := new Node(cb);
      if cbList == null {
        cbList := node;
      } else {
        var pre: Node? := null;
        var ptr := cbList;
        ghost var k := 0;
        while ptr != null
          invariant k <= |nodes| && ptr == At(nodes, k)
          invariant k > 0 ==> pre == nodes[k - 1]
          decreases |nodes| - k
        {
          pre := ptr;
          ptr := ptr.next;
          k := k + 1;
        }
        pre.next := node;
      }
      nodes := nodes + [node];
      ret := 0;
    }

    method SetVolume(devices: Devices, volume: nat) returns (ret: int)
      requires Valid()
      modifies this`volume, devices
      ensures volume > MAX_VOLUME ==>
                ret == -EINVAL && this.volume == old(this.volume) && devices.log == old(devices.log)
      ensures volume <= MAX_VOLUME ==>
                && this.volume == volume
                && devices.log == old(devices.log) + SetterCalls(Callbacks(), volume)
                && ret == if SetterCalls(Callbacks(), volume) == [] then -1 else devices.reply(devices.log)
    {
      ret := -1;
      if volume > MAX_VOLUME {
        return -EINVAL;
      }
      var ptr := cbList;
      ghost var k := 0;
      while ptr != null
        invariant k <= |nodes| && ptr == At(nodes, k)
        invariant devices.log == old(devices.log) + SetterCalls(Callbacks()[..k], volume)
        invariant ret == if SetterCalls(Callbacks()[..k], volume) == [] then -1 else devices.reply(devices.log)
        decreases |nodes| - k
      {
        SetterCallsStep(Callbacks(), k, volume);
        if ptr.cb.Some? && ptr.cb.value.setVolume.Some? {
          ret := devices.Set(ptr.cb.value.setVolume.value, volume);
        }
        ptr := ptr.next;
        k := k + 1;
      }
      assert Callbacks()[..k] == Callbacks();
      this.volume := volume;
    }

    /** The volumes are looked at before the list, which need not be there if they are out of range. */
    static method GetDbGain(attr: AdoAttr?, devices: Devices, before: int, after: int) returns (ret: int, dbGain: real)
      requires attr != null || !(0 <= before <= 100 && 0 <= after <= 100)
      requires attr != null ==> attr.Valid()
      modifies devices
      ensures !(0 <= before <= 100 && 0 <= after <= 100) ==>
                ret == -EINVAL && dbGain == 0.0 && devices.log == old(devices.log)
      ensures 0 <= before <= 100 && 0 <= after <= 100 ==>
                match Provider(attr.Callbacks())
                case None => ret == -ENOENT && dbGain == 0.0 && devices.log == old(devices.log)
                case Some(fn) =>
                  && devices.log == old(devices.log) + [GetDbGainCall(fn, before, after)]
                  && ret == devices.reply(devices.log) && dbGain == devices.gain(devices.log)
    {
      dbGain := 0.0;
      if before < 0 || before > MAX_VOLUME || after < 0 || after > MAX_VOLUME {
        return -EINVAL, dbGain;
      }
      var ptr := attr.cbList;
      ghost var k := 0;
      while ptr != null
        invariant k <= |attr.nodes| && ptr == At(attr.nodes, k)
        invariant Filter(HasProvider, attr.Callbacks()[..k]) == [] && devices.log == old(devices.log) && dbGain == 0.0
        decreases |attr.nodes| - k
      {
        FilterPrefix(HasProvider, attr.Callbacks(), k);
        assert attr.Callbacks()[k] == ptr.cb;
        if ptr.cb.Some? && ptr.cb.value.getDbGain.Some? {
          FirstProvider(attr.Callbacks(), k);
          ret, dbGain := devices.Gain(ptr.cb.value.getDbGain.value, before, after);
          return;
        }
        ptr := ptr.next;
        k := k + 1;
      }
      assert attr.Callbacks()[..k] == attr.Callbacks();
      return -ENOENT, dbGain;
    }
  }

  lemma SetterCallsStep(cbs: seq<Option<Callback>>, k: nat, volume: nat)
    requires k < |cbs|
    ensures SetterCalls(cbs[..k + 1], volume)
            == if HasSetter(cbs[k])
               then SetterCalls(cbs[..k], volume) + [SetVolumeCall(cbs[k].value.setVolume.value, volume)]
               else SetterCalls(cbs[..k], volume)
  {
    FilterPrefix(HasSetter, cbs, k);
    var front := Filter(HasSetter, cbs[..k]);
    assert front + [] == front;
    MapSnoc(SetterCall(volume), front, cbs[k]);
  }

  lemma FirstProvider(cbs: seq<Option<Callback>>, k: nat)
    requires k < |cbs| && Filter(HasProvider, cbs[..k]) == [] && HasProvider(cbs[k])
    ensures Provider(cbs) == cbs[k].value.getDbGain
  {
    FilterSplit(HasProvider, cbs, k);
    FilterSuffix(HasProvider, cbs, k);
  }

  // ---------- the system ----------

  class System {
    const devices: Devices
    var attr: AdoAttr?
    /** Every list node ever acquired and every list node freed, in order. */
    ghost var acquired: seq<Node>
    ghost var released: seq<Node>

    /** Nothing is freed twice and nothing is lost: what was acquired and not freed is in the list. */
    ghost predicate Valid()
      reads this, attr, if attr != null then attr.nodes else []
    {
      && AllDifferent(acquired)
      && (attr == null ==> acquired == released)
      && (attr != null ==> attr.Valid() && acquired == released + attr.nodes)
    }

    ghost function View(): State
      reads this, attr, if attr != null then attr.nodes else []
    {
      if attr == null then Closed else Open(attr.Callbacks(), attr.volume)
    }

    constructor (devices: Devices)
      ensures Valid() && View() == Closed && this.devices == devices && acquired == []
    {
      this.devices := devices;
      attr, acquired, released := null, [], [];
    }

    method RegisterCallback(cb: Option<Callback>) returns (ret: int)
      requires Valid()
      modifies this`acquired, attr, if attr != null then attr.nodes else []
      ensures Valid() && View() == Next(old(View()), Register(cb))
      ensures ret == if old(attr) == null || cb.None? then -EINVAL else 0
      ensures attr != null && cb.Some? ==>
                && |attr.nodes| == |old(attr.nodes)| + 1 && attr.nodes[..|old(attr.nodes)|] == old(attr.nodes)
                && fresh(attr.nodes[|old(attr.nodes)|])
    {
      if attr == null {
        return -EINVAL;
      }
      ret := attr.RegCallback(cb);
      if cb.Some? {
        acquired := acquired + [attr.nodes[|attr.nodes| - 1]];
      }
    }

    /** Configured codecs whose driver is loaded and whose name is known, in order. */
    method RegisterCodecs(codecs: seq<Codec>) returns (ret: int)
      requires Valid() && attr != null && attr.nodes == []
      modifies this`acquired, attr
      ensures Valid() && View() == Open(Initial(codecs), old(attr.volume))
      ensures ret == CodecStatus(codecs)
    {
      hide CodecStatus, Initial;
      InitialNone();
      ret := 0;
      var i := 0;
      while i < |codecs|
        invariant 0 <= i <= |codecs| && Valid() && View().Open?
        invariant View() == Open(Initial(codecs[..i]), old(attr.volume))
        invariant ret == CodecStatus(codecs[..i])
        invariant forall j :: 0 <= j < |attr.nodes| ==> fresh(attr.nodes[j])
      {
        InitialStep(codecs, i);
        if codecs[i].present {
          if codecs[i].cb.Some? {
            ret := RegisterCallback(codecs[i].cb);
          } else {
            ret := -1;
          }
        }
        i := i + 1;
      }
      assert codecs[..i] == codecs;
    }

    /** The result of registering the codecs is not looked at. */
    method InitSystem(codecs: seq<Codec>) returns (ret: int)
      requires Valid()
      modifies this, attr, if attr != null then attr.nodes else []
      ensures Valid() && View() == Next(old(View()), Init(codecs))
      ensures ret == if old(attr) != null then -EBUSY else 0
      ensures released == old(released)
    {
      if attr != null {
        return -EBUSY;
      }
      attr := new AdoAttr();
      assert acquired == released + attr.nodes;
      var _ := RegisterCodecs(codecs);
      ret := 0;
    }

    /** Freed memory holds nothing one could rely on afterwards; freeing it again is not allowed. */
    method Free(n: Node)
      requires n !in released
      modifies this`released, n
      ensures released == old(released) + [n]
    {
      n.cb, n.next := None, n;
      released := released + [n];
    }

    /** Every node of the list is freed once, in order. */
    method CloseSystem()
      requires Valid()
      modifies this, attr, if attr != null then attr.nodes else []
      ensures Valid() && View() == Next(old(View()), Close)
      ensures acquired == old(acquired) == released
    {
      if attr != null {
        var ptr := attr.cbList;
        ghost var nodes := attr.nodes;
        ghost var k := 0;
        while ptr != null
          invariant k <= |nodes| && ptr == At(nodes, k)
          invariant released == old(released) + nodes[..k] && acquired == old(acquired)
          invariant forall i {:trigger nodes[i].next} :: k <= i < |nodes| ==> nodes[i].next == At(nodes, i + 1)
          decreases |nodes| - k
        {
          var pre := ptr;
          ptr := pre.next;
          assert pre !in released by {
            assert acquired[|released|] == pre;
            assert forall i :: 0 <= i < |released| ==> acquired[i] == released[i];
          }
          Free(pre);
          k := k + 1;
        }
        assert nodes[..k] == nodes;
        attr := null;
      }
    }

    method SetSystemVolume(volume: nat) returns (ret: int)
      requires Valid()
      modifies attr, devices
      ensures Valid() && View() == Next(old(View()), SetVolume(volume))
      ensures attr == null || volume > MAX_VOLUME ==> ret == -EINVAL && devices.log == old(devices.log)
      ensures View().Open? && volume <= MAX_VOLUME ==>
                && devices.log == old(devices.log) + SetterCalls(View().callbacks, volume)
                && ret == if SetterCalls(View().callbacks, volume) == [] then -1 else devices.reply(devices.log)
    {
      if attr == null {
        return -EINVAL;
      }
      ret := attr.SetVolume(devices, volume);
    }

    /** A closed system is read through a null pointer, unless a volume is out of range. */
    method GetSystemDbGain(before: int, after: int) returns (ret: int, dbGain: real)
      requires Valid() && (attr != null || !(0 <= before <= 100 && 0 <= after <= 100))
      modifies devices
      ensures Valid() && View() == Next(old(View()), GetDbGain(before, after))
      ensures !(0 <= before <= 100 && 0 <= after <= 100) ==>
                ret == -EINVAL && dbGain == 0.0 && devices.log == old(devices.log)
      ensures 0 <= before <= 100 && 0 <= after <= 100 ==>
                && View().Open?
                && match Provider(View().callbacks)
                   case None => ret == -ENOENT && dbGain == 0.0 && devices.log == old(devices.log)
                   case Some(fn) =>
                     && devices.log == old(devices.log) + [GetDbGainCall(fn, before, after)]
                     && ret == devices.reply(devices.log) && dbGain == devices.gain(devices.log)
    {
      ret, dbGain := AdoAttr.GetDbGain(attr, devices, before, after);
    }
  }

  lemma InitialNone()
    ensures Initial([]) == [] && CodecStatus([]) == 0
  {
  }

  lemma InitialStep(codecs: seq<Codec>, i: nat)
    requires i < |codecs|
    ensures Initial(codecs[..i + 1])
            == if Known(codecs[i]) then Initial(codecs[..i]) + [codecs[i].cb] else Initial(codecs[..i])
    ensures CodecStatus(codecs[..i + 1])
            == if !codecs[i].present then CodecStatus(codecs[..i]) else if codecs[i].cb.Some? then 0 else -1
  {
    assert codecs[..i + 1][..i] == codecs[..i];
    FilterPrefix(Known, codecs, i);
    var front := Filter(Known, codecs[..i]);
    assert front + [] == front;
    MapSnoc((c: Codec) => c.cb, front, codecs[i]);
  }

  /**
   Codec by codec: one more configured codec adds its callback at the end if its driver is loaded
   and its name known, and decides the status if its driver is loaded.
   */
  lemma CodecsOneByOne(codecs: seq<Codec>, c: Codec)
    ensures Initial([]) == [] && CodecStatus([]) == 0
    ensures Initial(codecs + [c]) == if c.present && c.cb.Some? then Initial(codecs) + [c.cb] else Initial(codecs)
    ensures CodecStatus(codecs + [c]) == if !c.present then CodecStatus(codecs) else if c.cb.Some? then 0 else -1
  {
    var all := codecs + [c];
    assert all[..|codecs|] == codecs && all[..|codecs| + 1] == all;
    InitialStep(all, |codecs|);
  }

  // ---------- whole runs ----------

  function Run(s: State, ops: seq<Op>): State {
    if ops == [] then s
    else
      var k := |ops| - 1;
      Next(Run(s, ops[..k]), ops[k])
  }

  predicate Closes(ops: seq<Op>, i: nat)
    requires i < |ops|
  {
    ops[i].Close?
  }

  predicate NoClose(ops: seq<Op>, i: nat) { forall j :: i <= j < |ops| ==> !Closes(ops, j) }

  /** Registrations that are accepted by an open system. */
  function Registered(ops: seq<Op>): seq<Option<Callback>> {
    if ops == [] then []
    else
      var k := |ops| - 1;
      if ops[k].Register? && ops[k].cb.Some? then Registered(ops[..k]) + [ops[k].cb] else Registered(ops[..k])
  }

  /** The last volume that was in range. */
  function LastVolume(ops: seq<Op>): int {
    if ops == [] then 0
    else
      var k := |ops| - 1;
      if ops[k].SetVolume? && ops[k].volume <= MAX_VOLUME then ops[k].volume else LastVolume(ops[..k])
  }

  /** The system is open if and only if it was initialised since it was last closed. */
  lemma {:induction false} OpenIff(ops: seq<Op>)
    ensures Run(Closed, ops).Open? <==> exists i :: 0 <= i < |ops| && ops[i].Init? && NoClose(ops, i)
  {
    if ops != [] {
      var k := |ops| - 1;
      var front := ops[..k];
      OpenIff(front);
      assert forall j :: 0 <= j < k ==> Closes(front, j) == Closes(ops, j);
      if exists i :: 0 <= i < |ops| && ops[i].Init? && NoClose(ops, i) {
        var i :| 0 <= i < |ops| && ops[i].Init? && NoClose(ops, i);
        assert !Closes(ops, k);
        assert i < k ==> front[i].Init? && NoClose(front, i);
      }
      if Run(Closed, ops).Open? {
        if Run(Closed, front).Open? {
          var i :| 0 <= i < |front| && front[i].Init? && NoClose(front, i);
          assert ops[i].Init? && NoClose(ops, i);
        } else {
          assert ops[k].Init? && NoClose(ops, k);
        }
      }
    }
  }

  /**
   While a system stays open, its list is what the codecs registered at initialisation followed by
   every accepted registration in order, and its volume is the last one in range.
   */
  lemma {:induction false} SessionContents(before: seq<Op>, codecs: seq<Codec>, since: seq<Op>)
    requires Run(Closed, before).Closed? && NoClose(since, 0)
    ensures Run(Closed, before + [Init(codecs)] + since)
            == Open(Initial(codecs) + Registered(since), LastVolume(since))
  {
    hide Run, Initial;
    var start := before + [Init(codecs)];
    if since == [] {
      assert start + since == start;
      RunSnoc(Closed, before, Init(codecs));
    } else {
      var k := |since| - 1;
      var front, op := since[..k], since[k];
      assert start + since == (start + front) + [op];
      assert forall j :: 0 <= j < k ==> Closes(front, j) == Closes(since, j);
      SessionContents(before, codecs, front);
      assert !Closes(since, k);
      RunSnoc(Closed, start + front, op);
    }
  }

  lemma RunSnoc(s: State, ops: seq<Op>, op: Op)
    ensures Run(s, ops + [op]) == Next(Run(s, ops), op)
  {
    assert (ops + [op])[..|ops|] == ops;
  }

  /** No operation ever puts a null callback into the list. */
  lemma {:induction false} NoNullCallback(ops: seq<Op>)
    ensures var s := Run(Closed, ops);
            s.Open? ==> forall i :: 0 <= i < |s.callbacks| ==> s.callbacks[i].Some?
  {
    if ops != [] {
      var k := |ops| - 1;
      NoNullCallback(ops[..k]);
      if ops[k].Init? {
        var known := Filter(Known, ops[k].codecs);
        FilterAll(Known, ops[k].codecs);
        MapAt((c: Codec) => c.cb, known);
        forall i | 0 <= i < |known| ensures Initial(ops[k].codecs)[i].Some? {
          assert known[i] in known;
        }
      }
    }
  }

  /**
   Setting the volume asks nobody on an empty list; one more entry at the end adds one call at the
   end, to its own setter and with the same volume, if it has a setter, and none otherwise.
   */
  lemma SetterCallsAre(cbs: seq<Option<Callback>>, cb: Option<Callback>, volume: nat)
    ensures SetterCalls([], volume) == []
    ensures SetterCalls(cbs + [cb], volume)
            == if cb.Some? && cb.value.setVolume.Some?
               then SetterCalls(cbs, volume) + [SetVolumeCall(cb.value.setVolume.value, volume)]
               else SetterCalls(cbs, volume)
  {
    var all := cbs + [cb];
    assert all[..|cbs|] == cbs && all[..|cbs| + 1] == all;
    SetterCallsStep(all, |cbs|, volume);
  }

  /** The gain is asked of the earliest provider, if there is any. */
  lemma ProviderIsEarliest(cbs: seq<Option<Callback>>)
    ensures Provider(cbs) == None
            <==> forall i :: 0 <= i < |cbs| ==> !(cbs[i].Some? && cbs[i].value.getDbGain.Some?)
    ensures Provider(cbs).Some? ==>
              exists i :: 0 <= i < |cbs| && cbs[i].Some? && Provider(cbs) == cbs[i].value.getDbGain
                          && forall j :: 0 <= j < i ==> !(cbs[j].Some? && cbs[j].value.getDbGain.Some?)
  {
    FilterAll(HasProvider, cbs);
    assert forall i :: 0 <= i < |cbs| ==> (HasProvider(cbs[i]) <==> cbs[i].Some? && cbs[i].value.getDbGain.Some?);
    if exists i :: 0 <= i < |cbs| && HasProvider(cbs[i]) {
      var i := Earliest(cbs);
      FilterAll(HasProvider, cbs[..i]);
      FirstProvider(cbs, i);
    }
  }

  lemma {:induction false} Earliest(cbs: seq<Option<Callback>>) returns (i: nat)
    requires exists i :: 0 <= i < |cbs| && HasProvider(cbs[i])
    ensures i < |cbs| && HasProvider(cbs[i]) && forall j :: 0 <= j < i ==> !HasProvider(cbs[j])
  {
    i := 0;
    while !HasProvider(cbs[i])
      invariant i < |cbs| && forall j :: 0 <= j < i ==> !HasProvider(cbs[j])
      decreases |cbs| - i
    {
      i := i + 1;
    }
  }
}
