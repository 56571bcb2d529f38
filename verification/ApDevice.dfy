/** The Associative Processor: six byte columns behind a mode register, a control register and an
    interrupt flag. The device itself is hardware; this module states what the firmware relies on. */
module ApDevice {
  import opened Arithmetic
  import opened ByteBits

  const COL_SIZE: nat := 512

  type Byte = x: int | 0 <= x < 256
  /** Truncation of a C integer to uint8_t. */
  function Wrap(v: int): Byte { v % 256 }

  type Column = s: seq<Byte> | |s| == COL_SIZE witness seq(COL_SIZE, _ => 0)

  function ZeroColumn(): (r: Column)
    ensures forall i :: 0 <= i < COL_SIZE ==> r[i] == 0
  {
    seq(COL_SIZE, _ => 0)
  }

  datatype Col = ColA | ColB | ColC
  datatype Target = TargetC | TargetA
  datatype Op = Or | Xor | And | Not | Add | Sub | Mult | Set | Search | AddD | Undefined

  /** The content of the six columns. */
  datatype Cam = Cam(aLeft: Column, aRight: Column, bLeft: Column, bRight: Column, cLeft: Column, cRight: Column) {
    function Get(col: Col, right: bool): Column {
      match col
      case ColA => if right then aRight else aLeft
      case ColB => if right then bRight else bLeft
      case ColC => if right then cRight else cLeft
    }

    function Put(col: Col, right: bool, v: Column): Cam {
      match col
      case ColA => if right then this.(aRight := v) else this.(aLeft := v)
      case ColB => if right then this.(bRight := v) else this.(bLeft := v)
      case ColC => if right then this.(cRight := v) else this.(cLeft := v)
    }
  }

  function ZeroCam(): Cam {
    Cam(ZeroColumn(), ZeroColumn(), ZeroColumn(), ZeroColumn(), ZeroColumn(), ZeroColumn())
  }

  // ---------- command and control words ----------

  function OpCode(op: Op): bv32 {
    match op
    case Or => 0
    case Xor => 1
    case And => 2
    case Not => 3
    case Add => 4
    case Sub => 5
    case Mult => 6
    case Set => 7
    case Search => 8
    case AddD => 9
    case Undefined => 255
  }

  function DecodeOp(cmd: bv32): Op {
    if cmd == 0 then Or else if cmd == 1 then Xor else if cmd == 2 then And else if cmd == 3 then Not
    else if cmd == 4 then Add else if cmd == 5 then Sub else if cmd == 6 then Mult else if cmd == 7 then Set
    else if cmd == 8 then Search else if cmd == 9 then AddD else Undefined
  }

  function Pack(b3: bv32, b2: bv32, b1: bv32, b0: bv32): bv32 {
    (b3 << 24) | (b2 << 16) | (b1 << 8) | b0
  }

  function Byte3(w: bv32): bv32 { w >> 24 }
  function Byte2(w: bv32): bv32 { (w >> 16) & 0xff }
  function Byte1(w: bv32): bv32 { (w >> 8) & 0xff }
  function Byte0(w: bv32): bv32 { w & 0xff }

  lemma PackRoundTrip(b3: bv32, b2: bv32, b1: bv32, b0: bv32)
    requires b3 < 256 && b2 < 256 && b1 < 256 && b0 < 256
    ensures Byte3(Pack(b3, b2, b1, b0)) == b3 && Byte2(Pack(b3, b2, b1, b0)) == b2
    ensures Byte1(Pack(b3, b2, b1, b0)) == b1 && Byte0(Pack(b3, b2, b1, b0)) == b0
  {
  }

  /** Bit 0, 1 and 2 of the internal-column byte pick the right half of column A, B and C. */
  predicate RightOf(col: Col, internal: bv32) {
    match col
    case ColA => internal & 1 != 0
    case ColB => internal & 2 != 0
    case ColC => internal & 4 != 0
  }

  function Operand(cam: Cam, col: Col, internal: bv32): Column {
    cam.Get(col, RightOf(col, internal))
  }

  function SelectedCol(sel: bv32): Col {
    if sel == 0 then ColA else if sel == 1 then ColB else ColC
  }

  // ---------- what one trigger does ----------

  /** ap_unit_test_sw: what the repository's own reference makes of two bytes. */
  function UnitTestSw(op: Op, x: Byte, y: Byte): Byte {
    match op
    case Or => (x as bv8 | y as bv8) as int
    case Xor => (x as bv8 ^ y as bv8) as int
    case And => (x as bv8 & y as bv8) as int
    case Not => (!(x as bv8)) as int
    case Add => Wrap(x + y)
    case Sub => Wrap(x - y)
    case Mult => Wrap(Times(x, y))
    case _ => 0
  }

  /** The reference subtracts what it adds. */
  lemma SubUndoesAdd(x: Byte, y: Byte, sum: Byte)
    ensures UnitTestSw(Add, x, y) == sum <==> UnitTestSw(Sub, sum, y) == x
  {
    SumsAndDifferences(x, y, sum);
  }

  lemma SumsAndDifferences(x: Byte, y: Byte, sum: Byte)
    ensures Wrap(x + y) == sum <==> Wrap(sum - y) == x
  {
  }

  /** Its logical operations act on each bit alone. */
  lemma OrBitByBit(x: Byte, y: Byte, i: nat)
    requires i < 8
    ensures Bit(UnitTestSw(Or, x, y) as bv8, i) <==> Bit(x as bv8, i) || Bit(y as bv8, i)
  {
    OrByte(x, y);
    OrBit(x as bv8, y as bv8, UnitTestSw(Or, x, y) as bv8, i);
  }

  lemma XorBitByBit(x: Byte, y: Byte, i: nat)
    requires i < 8
    ensures Bit(UnitTestSw(Xor, x, y) as bv8, i) <==> Bit(x as bv8, i) != Bit(y as bv8, i)
  {
    XorByte(x, y);
    XorBit(x as bv8, y as bv8, UnitTestSw(Xor, x, y) as bv8, i);
  }

  lemma AndBitByBit(x: Byte, y: Byte, i: nat)
    requires i < 8
    ensures Bit(UnitTestSw(And, x, y) as bv8, i) <==> Bit(x as bv8, i) && Bit(y as bv8, i)
  {
    AndByte(x, y);
    AndBit(x as bv8, y as bv8, UnitTestSw(And, x, y) as bv8, i);
  }

  lemma NotBitByBit(x: Byte, y: Byte, i: nat)
    requires i < 8
    ensures Bit(UnitTestSw(Not, x, y) as bv8, i) <==> !Bit(x as bv8, i)
  {
    ThereAndBack(!(x as bv8));
    NotBit(x as bv8, i);
  }

  lemma OrByte(x: Byte, y: Byte)
    ensures UnitTestSw(Or, x, y) as bv8 == x as bv8 | y as bv8
  {
    ThereAndBack(x as bv8 | y as bv8);
  }

  lemma XorByte(x: Byte, y: Byte)
    ensures UnitTestSw(Xor, x, y) as bv8 == x as bv8 ^ y as bv8
  {
    ThereAndBack(x as bv8 ^ y as bv8);
  }

  lemma AndByte(x: Byte, y: Byte)
    ensures UnitTestSw(And, x, y) as bv8 == x as bv8 & y as bv8
  {
    ThereAndBack(x as bv8 & y as bv8);
  }

  lemma ThereAndBack(v: bv8)
    ensures (v as int) as bv8 == v
  {
  }

  /** The product the device forms: exact for 4-bit operands, `wide` for any other pair. */
  function Product(wide: (Byte, Byte) -> Byte, x: Byte, y: Byte): Byte {
    if x < 16 && y < 16 then x * y else wide(x, y)
  }

  function RowOp(wide: (Byte, Byte) -> Byte, op: Op, x: Byte, y: Byte): Byte {
    if op == Mult then Product(wide, x, y) else UnitTestSw(op, x, y)
  }

  function RowOps(wide: (Byte, Byte) -> Byte, op: Op, x: Column, y: Column): (r: Column)
    ensures forall i :: 0 <= i < COL_SIZE ==> r[i] == RowOp(wide, op, x[i], y[i])
  {
    seq(COL_SIZE, i requires 0 <= i < COL_SIZE => RowOp(wide, op, x[i], y[i]))
  }

  function AddBytes(x: int, y: int): Byte { Wrap(x + y) }

  function Sum(x: Column, y: Column): (r: Column)
    ensures forall i :: 0 <= i < COL_SIZE ==> r[i] == AddBytes(x[i], y[i])
  {
    seq(COL_SIZE, i requires 0 <= i < COL_SIZE => AddBytes(x[i], y[i]))
  }

  function Broadcast(b: Byte): (r: Column)
    ensures forall i :: 0 <= i < COL_SIZE ==> r[i] == b
  {
    seq(COL_SIZE, _ => b)
  }

  predicate IsRowOp(op: Op) {
    op.Or? || op.Xor? || op.And? || op.Not? || op.Add? || op.Sub? || op.Mult?
  }

  /** The commands this model gives a meaning to. */
  predicate Modelled(op: Op, target: Target) {
    (IsRowOp(op) && target == TargetC) || (op == Set && target == TargetC) || op == AddD
  }

  function Execute(wide: (Byte, Byte) -> Byte, cam: Cam, op: Op, internal: bv32, sel: bv32, target: Target): Cam
    requires Modelled(op, target)
  {
    if IsRowOp(op) then
      cam.Put(ColC, RightOf(ColC, internal),
              RowOps(wide, op, Operand(cam, ColA, internal), Operand(cam, ColB, internal)))
    else if op == Set then
      cam.Put(SelectedCol(sel), RightOf(SelectedCol(sel), internal),
              Broadcast(Operand(cam, SelectedCol(sel), internal)[0]))
    else if target == TargetC then
      cam.Put(ColC, RightOf(ColC, internal), Sum(Operand(cam, ColC, internal), Operand(cam, ColA, internal)))
    else
      cam.Put(ColA, RightOf(ColA, internal), Sum(Operand(cam, ColA, internal), Operand(cam, ColC, internal)))
  }

  function ClearIf(clear: bool, cam: Cam, col: Col, internal: bv32): Cam {
    if clear then cam.Put(col, RightOf(col, internal), ZeroColumn()) else cam
  }

  /** Bit 0, 1 and 2 of the reset byte clear the selected half of column A, B and C. */
  function Reset(cam: Cam, internal: bv32, bits: bv32): Cam {
    ClearIf(bits & 4 != 0,
            ClearIf(bits & 2 != 0, ClearIf(bits & 1 != 0, cam, ColA, internal), ColB, internal),
            ColC, internal)
  }

  function TargetOf(control: bv32): Target {
    if Byte2(control) == 0 then TargetC else TargetA
  }

  /** True when writing `control` starts a computation: interface locked, trigger byte set. */
  predicate Triggers(control: bv32) {
    Byte3(control) != 0 && Byte1(control) != 0
  }

  predicate WriteModelled(mode: bv32, control: bv32) {
    Triggers(control) ==> Modelled(DecodeOp(Byte0(mode)), TargetOf(control))
  }

  function ControlEffect(wide: (Byte, Byte) -> Byte, cam: Cam, mode: bv32, control: bv32): Cam
    requires WriteModelled(mode, control)
  {
    if Byte3(control) == 0 then cam
    else if Triggers(control) then
      Execute(wide, Reset(cam, Byte3(mode), Byte0(control)),
              DecodeOp(Byte0(mode)), Byte3(mode), Byte2(mode), TargetOf(control))
    else Reset(cam, Byte3(mode), Byte0(control))
  }

  // ---------- the device ----------

  /** Register and column state. A triggered computation takes `busy` more polls of the interrupt flag,
      a number chosen by the device. */
  class Ap {
    const wide: (Byte, Byte) -> Byte
    var cam: Cam
    var mode: bv32
    var control: bv32
    var busy: nat

    constructor (wide: (Byte, Byte) -> Byte, cam: Cam)
      ensures this.wide == wide && this.cam == cam && Released()
    {
      this.wide, this.cam := wide, cam;
      mode, control, busy := 0, 0, 0;
    }

    /** The processor may access the columns: interface released and no computation under way. */
    predicate Released()
      reads this
    {
      control == 0 && busy == 0
    }

    method WriteMode(w: bv32)
      requires busy == 0
      modifies this`mode
      ensures mode == w
    {
      mode := w;
    }

    method WriteControl(w: bv32)
      requires busy == 0 && WriteModelled(mode, w)
      modifies this`cam, this`control, this`busy
      ensures control == w && (busy != 0 ==> Triggers(w))
      ensures cam == ControlEffect(wide, old(cam), mode, w)
    {
      cam := ControlEffect(wide, cam, mode, w);
      control := w;
      if Triggers(w) {
        busy := *;
      }
    }

    method ReadIrq() returns (done: bool)
      modifies this`busy
      ensures done == (old(busy) == 0)
      ensures busy == if old(busy) == 0 then 0 else old(busy) - 1
    {
      done := busy == 0;
      busy := if busy == 0 then 0 else busy - 1;
    }

    method Store(col: Col, right: bool, i: nat, b: Byte)
      requires Released() && i < COL_SIZE
      modifies this`cam
      ensures cam == old(cam).Put(col, right, old(cam).Get(col, right)[i := b])
    {
      cam := cam.Put(col, right, cam.Get(col, right)[i := b]);
    }
  }
}
