/** The hardware abstraction layer of the Associative Processor (src/ap_hal.c), proved against the
    device. Every function leaves the interface released. */
module ApHal {
  import opened ApDevice

  const HORIZONTAL: bv32 := 0
  const LEFT: bv32 := 0
  const RIGHT: bv32 := 7

  /** The device reads these bytes and this command out of the word. */
  predicate EncodesMode(w: bv32, internal: bv32, sel: bv32, direction: bv32, op: Op) {
    Byte3(w) == internal && Byte2(w) == sel && Byte1(w) == direction && DecodeOp(Byte0(w)) == op
  }

  lemma ModeDecodes(internal: bv32, sel: bv32, direction: bv32, op: Op)
    ensures internal < 256 && sel < 256 && direction < 256 ==>
      EncodesMode(Pack(internal, sel, direction, OpCode(op)), internal, sel, direction, op)
  {
    OpDecodes(op);
    if internal < 256 && sel < 256 && direction < 256 {
      PackRoundTrip(internal, sel, direction, OpCode(op));
    }
  }

  lemma OpDecodes(op: Op)
    ensures DecodeOp(OpCode(op)) == op && OpCode(op) < 256
  {
  }

  /** The mode word, from which the device decodes what was put in. */
  method SetModeReg(d: Ap, internal: bv32, sel: bv32, direction: bv32, op: Op)
    requires d.busy == 0
    modifies d`mode
    ensures d.mode == Pack(internal, sel, direction, OpCode(op))
    ensures internal < 256 && sel < 256 && direction < 256 ==> EncodesMode(d.mode, internal, sel, direction, op)
  {
    ModeDecodes(internal, sel, direction, op);
    d.WriteMode((internal << 24) | (sel << 16) | (direction << 8) | OpCode(op));
  }

  /** The interface state byte, the target byte, the trigger byte and the reset byte. */
  method SetControlReg(d: Ap, ifState: bv32, target: bv32, trigger: bv32, rst: bv32)
    requires d.busy == 0 && WriteModelled(d.mode, Pack(ifState, target, trigger, rst))
    modifies d`cam, d`control, d`busy
    ensures d.control == Pack(ifState, target, trigger, rst) && (d.busy != 0 ==> Triggers(d.control))
    ensures d.cam == ControlEffect(d.wide, old(d.cam), d.mode, d.control)
  {
    d.WriteControl((ifState << 24) | (target << 16) | (trigger << 8) | rst);
  }

  method WarmupAp(d: Ap)
    requires d.busy == 0
    modifies d
    ensures d.cam == ZeroCam() && d.Released() && d.mode == 0
  {
    d.WriteControl(0);
    d.WriteMode(0);
    d.WriteControl(0x1000000);
    d.WriteControl(0x1000007);
    d.WriteControl(0x1000000);
    d.WriteControl(0x1000008);
    d.WriteControl(0x1000000);
    d.WriteMode(0x7000000);
    d.WriteControl(0x1000007);
    d.WriteControl(0x1000000);
    d.WriteControl(0x0);
    d.WriteMode(0x0);
  }

  method FlushA1(d: Ap)
    requires d.busy == 0
    modifies d
    ensures d.cam == old(d.cam).(aRight := ZeroColumn()) && d.Released()
  {
    d.WriteControl(0x1000000);
    d.WriteMode(0x7000000);
    d.WriteControl(0x1000001);
    d.WriteControl(0x0);
    d.WriteMode(0x0);
  }

  method FlushB0(d: Ap)
    requires d.busy == 0
    modifies d
    ensures d.cam == old(d.cam).(bLeft := ZeroColumn()) && d.Released()
  {
    d.WriteControl(0x1000000);
    d.WriteMode(0x0);
    d.WriteControl(0x1000002);
    d.WriteControl(0x0);
    d.WriteMode(0x0);
  }

  method FlushB1(d: Ap)
    requires d.busy == 0
    modifies d
    ensures d.cam == old(d.cam).(bRight := ZeroColumn()) && d.Released()
  {
    d.WriteControl(0x1000000);
    d.WriteMode(0x7000000);
    d.WriteControl(0x1000002);
    d.WriteControl(0x0);
    d.WriteMode(0x0);
  }

  method FlushC0(d: Ap)
    requires d.busy == 0
    modifies d
    ensures d.cam == old(d.cam).(cLeft := ZeroColumn()) && d.Released()
  {
    d.WriteMode(0x0);
    d.WriteControl(0x1000000);
    d.WriteControl(0x1000004);
    d.WriteControl(0x0);
  }

  method FlushC1(d: Ap)
    requires d.busy == 0
    modifies d
    ensures d.cam == old(d.cam).(cRight := ZeroColumn()) && d.Released()
  {
    d.WriteControl(0x1000000);
    d.WriteMode(0x7000000);
    d.WriteControl(0x1000004);
    d.WriteControl(0x0);
    d.WriteMode(0x0);
  }

  /** Locking the interface alone starts nothing and changes no column. */
  lemma LockEffect(wide: (Byte, Byte) -> Byte, cam: Cam, mode: bv32)
    ensures !Triggers(Pack(1, 0, 0, 0)) && ControlEffect(wide, cam, mode, Pack(1, 0, 0, 0)) == cam
  {
    PackRoundTrip(1, 0, 0, 0);
  }

  /** The trigger words execute the operation the mode word encodes. */
  lemma TriggerEffect(wide: (Byte, Byte) -> Byte, cam: Cam, op: Op, direction: bv32, internal: bv32, target: Target)
    requires Modelled(op, target) && direction < 256 && internal < 256
    ensures var mode := Pack(internal, 0, direction, OpCode(op));
      var control := Pack(1, if target == TargetC then 0 else 1, 1, 0);
      WriteModelled(mode, control) &&
      ControlEffect(wide, cam, mode, control) == Execute(wide, cam, op, internal, 0, target)
  {
    PackRoundTrip(internal, 0, direction, OpCode(op));
    PackRoundTrip(1, if target == TargetC then 0 else 1, 1, 0);
  }

  method TriggerComputing(d: Ap, op: Op, direction: bv32, internal: bv32)
    requires Modelled(op, TargetC) && direction < 256 && internal < 256 && d.busy == 0
    modifies d
    ensures d.cam == Execute(d.wide, old(d.cam), op, internal, 0, TargetC) && d.Released()
  {
    LockEffect(d.wide, d.cam, d.mode);
    SetControlReg(d, 1, 0, 0, 0);
    SetModeReg(d, internal, 0, direction, op);
    TriggerEffect(d.wide, d.cam, op, direction, internal, TargetC);
    SetControlReg(d, 1, 0, 1, 0);
    AwaitIrq(d);
    d.WriteControl(0x0);
  }

  method TriggerComputingTargetA(d: Ap, op: Op, direction: bv32, internal: bv32)
    requires Modelled(op, TargetA) && direction < 256 && internal < 256 && d.busy == 0
    modifies d
    ensures d.cam == Execute(d.wide, old(d.cam), op, internal, 0, TargetA) && d.Released()
  {
    LockEffect(d.wide, d.cam, d.mode);
    SetControlReg(d, 1, 0, 0, 0);
    SetModeReg(d, internal, 0, direction, op);
    TriggerEffect(d.wide, d.cam, op, direction, internal, TargetA);
    SetControlReg(d, 1, 1, 1, 0);
    AwaitIrq(d);
    d.WriteControl(0x0);
  }

  method AwaitIrq(d: Ap)
    modifies d`busy
    ensures d.busy == 0
  {
    var done := d.ReadIrq();
    while !done
      invariant done ==> d.busy == 0
      decreases d.busy, if done then 0 else 1
    {
      done := d.ReadIrq();
    }
  }

  method SetValueCamALeft(d: Ap, factor: Byte)
    requires d.Released()
    modifies d
    ensures d.cam == old(d.cam).(aLeft := Broadcast(factor)) && d.Released()
  {
    d.Store(ColA, false, 0, factor);
    LockEffect(d.wide, d.cam, d.mode);
    SetControlReg(d, 1, 0, 0, 0);
    SetModeReg(d, LEFT, 0, 0, Set);
    TriggerEffect(d.wide, d.cam, Set, 0, LEFT, TargetC);
    SetControlReg(d, 1, 0, 1, 0);
    AwaitIrq(d);
    d.WriteControl(0x0);
  }

  lemma SpliceStep(src: seq<Byte>, dst: seq<Byte>, i: nat)
    requires i < |src| && i < |dst|
    ensures (src[..i] + dst[i..])[i := src[i]] == src[..i + 1] + dst[i + 1..]
  {
  }

  /** ap_memcpy into column B left. */
  method CopyToBLeft(d: Ap, src: array<Byte>, from: nat, bytes: nat)
    requires d.Released() && from + bytes <= src.Length && bytes <= COL_SIZE
    modifies d`cam
    ensures d.cam == old(d.cam).(bLeft := src[from..from + bytes] + old(d.cam).bLeft[bytes..])
  {
    ghost var before, block := d.cam, src[from..from + bytes];
    for i := 0 to bytes
      invariant d.cam == before.(bLeft := block[..i] + before.bLeft[i..])
    {
      assert src[from + i] == block[i];
      d.Store(ColB, false, i, src[from + i]);
      SpliceStep(block, before.bLeft, i);
    }
    assert block[..bytes] == block;
  }

  /** ap_memcpy from column C left to column A right. */
  method CopyCLeftToARight(d: Ap, bytes: nat)
    requires d.Released() && bytes <= COL_SIZE
    modifies d`cam
    ensures d.cam == old(d.cam).(aRight := old(d.cam).cLeft[..bytes] + old(d.cam).aRight[bytes..])
  {
    ghost var before := d.cam;
    for i := 0 to bytes
      invariant d.cam == before.(aRight := before.cLeft[..i] + before.aRight[i..])
    {
      d.Store(ColA, true, i, d.cam.cLeft[i]);
      SpliceStep(before.cLeft, before.aRight, i);
    }
  }

  /** ap_memcpy of a column into a buffer. */
  method CopyFromColumn(d: Ap, col: Col, right: bool, dst: array<Byte>, at: nat, bytes: nat)
    requires d.Released() && at + bytes <= dst.Length && bytes <= COL_SIZE
    modifies dst
    ensures dst[..] == old(dst[..at]) + d.cam.Get(col, right)[..bytes] + old(dst[at + bytes..])
  {
    for i := 0 to bytes
      invariant dst[..at] == old(dst[..at]) && dst[at..at + i] == d.cam.Get(col, right)[..i]
      invariant dst[at + i..] == old(dst[at + i..])
    {
      dst[at + i] := d.cam.Get(col, right)[i];
    }
    assert dst[..] == dst[..at] + dst[at..at + bytes] + dst[at + bytes..];
  }
}
