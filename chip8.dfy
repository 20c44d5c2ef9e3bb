/** The CHIP-8 machine of emulator.c as values: the `struct chip_8` record, the
    reset done by `init_arch`/`load_fontset`, `fetch_instr`, `execute_instruction`
    (one function per opcode family, with the `PC += 2` that ends every case that
    `break`s), `update_timers` and the per-frame step of `main`.

    Where the C code indexes an array without a check, the access must be in
    bounds for the code to mean anything; `Defined` collects those conditions and
    every operation requires them. */
module Chip8 {
  import opened Bits
  import opened Sprite

  /** `memory` is 4096 bytes less the 256 reserved for a framebuffer. */
  const MemorySize: nat := 4096 - Cells / 8
  const ProgramStart: word := 0x200
  const StackDepth: nat := 16
  const Registers: nat := 16
  const Keys: nat := 16
  /** V[0xF] is the flag register. */
  const Flag: nat := 0xF
  const InstructionsPerFrame: nat := 10

  /** The sixteen 5-byte hexadecimal digit glyphs, `chip8_fontset`. */
  const FontSet: seq<byte> := [
    0xF0, 0x90, 0x90, 0x90, 0xF0, // 0
    0x20, 0x60, 0x20, 0x20, 0x70, // 1
    0xF0, 0x10, 0xF0, 0x80, 0xF0, // 2
    0xF0, 0x10, 0xF0, 0x10, 0xF0, // 3
    0x90, 0x90, 0xF0, 0x10, 0x10, // 4
    0xF0, 0x80, 0xF0, 0x10, 0xF0, // 5
    0xF0, 0x80, 0xF0, 0x90, 0xF0, // 6
    0xF0, 0x10, 0x20, 0x40, 0x40, // 7
    0xF0, 0x90, 0xF0, 0x90, 0xF0, // 8
    0xF0, 0x90, 0xF0, 0x10, 0xF0, // 9
    0xF0, 0x90, 0xF0, 0x90, 0x90, // A
    0xE0, 0x90, 0xE0, 0x90, 0xE0, // B
    0xF0, 0x80, 0x80, 0x80, 0xF0, // C
    0xE0, 0x90, 0x90, 0x90, 0xE0, // D
    0xF0, 0x80, 0xF0, 0x80, 0xF0, // E
    0xF0, 0x80, 0xF0, 0x80, 0x80  // F
  ]

  /** `struct chip_8` without its unused `VF` byte. A key is pressed when true. */
  datatype State = State(
    V: seq<byte>,
    I: word,
    delay: byte,
    sound: byte,
    PC: word,
    stack: seq<word>,
    SP: byte,
    memory: seq<byte>,
    display: seq<byte>,
    key: seq<bool>)

  /** The array sizes of the record, and a stack pointer that indexes at most one
      past the last stack slot. */
  predicate Valid(s: State)
  {
    && |s.V| == Registers
    && |s.stack| == StackDepth
    && s.SP <= StackDepth
    && |s.memory| == MemorySize
    && |s.display| == Cells
    && |s.key| == Keys
  }

  // Operand fields of an instruction word.
  function Family(inst: word): nat { inst / 0x1000 }
  function X(inst: word): nat { (inst / 0x100) % 16 }
  function Y(inst: word): nat { (inst / 0x10) % 16 }
  function N(inst: word): nat { inst % 16 }
  function KK(inst: word): byte { inst % 0x100 }
  function NNN(inst: word): word { inst % 0x1000 }

  /** The machine after `init_arch`: everything zero, the font at address 0, PC at 0x200. */
  function Reset(): (s: State)
    ensures Valid(s)
  {
    State(
      V := seq(Registers, _ => 0),
      I := 0,
      delay := 0,
      sound := 0,
      PC := ProgramStart,
      stack := seq(StackDepth, _ => 0),
      SP := 0,
      memory := FontSet + seq(MemorySize - |FontSet|, _ => 0),
      display := seq(Cells, _ => 0),
      key := seq(Keys, _ => false))
  }

  datatype Option<T> = None | Some(value: T)

  /** The size check of `read_program` as written: at most 4096 - 0x200 bytes. */
  predicate FitsAsWritten(program: seq<byte>)
  {
    |program| <= 4096 - ProgramStart
  }

  /** The size check a program copied to 0x200 of the 3840-byte memory needs. */
  predicate Fits(program: seq<byte>)
  {
    ProgramStart + |program| <= MemorySize
  }

  /** `read_program` on the bytes of the file, with the size check of `Fits`:
      None is the `-1` return, Some the machine with the program at 0x200. */
  function LoadProgram(s: State, program: seq<byte>): (r: Option<State>)
    requires Valid(s)
    ensures r.Some? <==> Fits(program)
    ensures r.Some? ==> Valid(r.value)
  {
    if Fits(program) then
      Some(s.(memory := s.memory[..ProgramStart] + program + s.memory[ProgramStart + |program|..]))
    else None
  }

  /** `fetch_instr`: the two bytes at PC, most significant first. */
  function Fetch(s: State): (inst: word)
    requires Valid(s) && s.PC + 1 < MemorySize
    ensures inst / 0x100 == s.memory[s.PC] && inst % 0x100 == s.memory[s.PC + 1]
  {
    (s.memory[s.PC] as int) * 0x100 + s.memory[s.PC + 1]
  }

  /** The accesses `execute_instruction` makes without a check are in bounds:
      the stack slot of RET and CALL, the sprite rows of DRW, the three BCD
      bytes and the register block of Fx55/Fx65. */
  predicate Defined(s: State, inst: word)
    requires Valid(s)
  {
    match Family(inst)
    case 0x0 => inst == 0x00EE ==> s.SP > 0
    case 0x2 => s.SP < StackDepth
    case 0xD => N(inst) == 0 || s.I + N(inst) <= MemorySize
    case 0xF =>
      && (KK(inst) == 0x33 ==> s.I + 2 < MemorySize)
      && (KK(inst) == 0x55 || KK(inst) == 0x65 ==> s.I + X(inst) < MemorySize)
    case _ => true
  }

  /** `PC += 2` on the 16-bit program counter. */
  function Advance(s: State): State
  {
    s.(PC := Wrap16(s.PC + 2))
  }

  /** `execute_instruction`: JP, CALL and `Bnnn` set PC and return; every other
      case ends with `PC += 2`. */
  function Execute(s: State, inst: word, rnd: byte): (r: State)
    requires Valid(s) && Defined(s, inst)
    ensures Valid(r)
  {
    match Family(inst)
    case 0x1 => s.(PC := NNN(inst))
    case 0x2 => s.(stack := s.stack[s.SP := s.PC], SP := s.SP + 1, PC := NNN(inst))
    case 0xB => s.(PC := NNN(inst) + s.V[0])
    case _ => Advance(Effect(s, inst, rnd))
  }

  /** The body of a `break`ing case of `execute_instruction`, before the final
      `PC += 2`. Unrecognised forms of the 0, 8, E and F families do nothing here. */
  function Effect(s: State, inst: word, rnd: byte): (r: State)
    requires Valid(s) && Defined(s, inst)
    ensures Valid(r)
  {
    var x, y, n, kk, nnn := X(inst), Y(inst), N(inst), KK(inst), NNN(inst);
    match Family(inst)
    case 0x0 =>
      if inst == 0x00E0 then s.(display := seq(Cells, _ => 0))
      else if inst == 0x00EE then s.(SP := s.SP - 1, PC := s.stack[s.SP - 1])
      else s
    case 0x3 => if s.V[x] == kk then Advance(s) else s
    case 0x4 => if s.V[x] != kk then Advance(s) else s
    case 0x5 => if s.V[x] == s.V[y] then Advance(s) else s
    case 0x6 => s.(V := s.V[x := kk])
    case 0x7 => s.(V := s.V[x := ((s.V[x] as int) + kk) % 0x100])
    case 0x8 => Alu(s, x, y, n)
    case 0x9 => if s.V[x] != s.V[y] then Advance(s) else s
    case 0xA => s.(I := nnn)
    case 0xC => s.(V := s.V[x := And8(rnd, kk)])
    case 0xD => Draw(s, x, y, n)
    case 0xE =>
      // `key[V[x] & 0xF]`: the low nibble of Vx selects the key
      if kk == 0x9E then (if s.key[s.V[x] % 16] then Advance(s) else s)
      else if kk == 0xA1 then (if !s.key[s.V[x] % 16] then Advance(s) else s)
      else s
    case 0xF => Misc(s, x, kk)
    case _ => s
  }

  /** The `8xyn` register operations. The flag is written first and the result
      is computed from the registers as they are after that write, as the C
      statements do; for x = 0xF the result replaces the flag. */
  function Alu(s: State, x: nat, y: nat, n: nat): (r: State)
    requires Valid(s) && x < Registers && y < Registers
    ensures Valid(r)
  {
    var V := s.V;
    match n
    case 0x0 => s.(V := V[x := V[y]])
    case 0x1 => s.(V := V[x := Or8(V[x], V[y])])
    case 0x2 => s.(V := V[x := And8(V[x], V[y])])
    case 0x3 => s.(V := V[x := Xor8(V[x], V[y])])
    case 0x4 =>
      var sum := (V[x] as int) + V[y];
      var f := V[Flag := if sum > 0xFF then 1 else 0];
      s.(V := f[x := sum % 0x100])
    case 0x5 =>
      var f := V[Flag := if V[x] > V[y] then 1 else 0];
      s.(V := f[x := ((f[x] as int) - f[y]) % 0x100])
    case 0x6 =>
      var f := V[Flag := V[x] % 2];
      s.(V := f[x := f[x] / 2])
    case 0x7 =>
      var f := V[Flag := if V[y] > V[x] then 1 else 0];
      s.(V := f[x := ((f[y] as int) - f[x]) % 0x100])
    case 0xE =>
      // `V[x] & 0x80` is non-zero exactly when Vx >= 0x80
      var f := V[Flag := if V[x] >= 0x80 then 1 else 0];
      s.(V := f[x := ((f[x] as int) * 2) % 0x100])
    case _ => s
  }

  /** The sprite of a `Dxyn`: the `n` bytes at I. */
  function SpriteAt(s: State, n: nat): (sprite: seq<byte>)
    requires Valid(s) && (n == 0 || s.I + n <= MemorySize)
    ensures |sprite| == n
  {
    if n == 0 then [] else s.memory[s.I .. s.I + n]
  }

  /** `Dxyn`: XOR the sprite into the display from (Vx mod 64, Vy mod 32),
      wrapping at the edges; V[0xF] tells whether a lit cell was hit. */
  function Draw(s: State, x: nat, y: nat, n: nat): (r: State)
    requires Valid(s) && x < Registers && y < Registers && n < 16
    requires n == 0 || s.I + n <= MemorySize
    ensures Valid(r)
  {
    var sx, sy := s.V[x] % Width, s.V[y] % Height;
    var sprite := SpriteAt(s, n);
    s.(V := s.V[Flag := if Collides(s.display, sprite, sx, sy, 8 * n) then 1 else 0],
       display := Blit(s.display, sprite, sx, sy, 8 * n))
  }

  /** The index of the lowest pressed key at or after `from`, or -1 if none. */
  function FirstPressed(key: seq<bool>, from: nat): (k: int)
    requires from <= |key|
    ensures -1 <= k < |key|
    ensures k == -1 <==> forall j :: from <= j < |key| ==> !key[j]
    ensures k >= 0 ==> from <= k && key[k] && forall j :: from <= j < k ==> !key[j]
    decreases |key| - from
  {
    if from == |key| then -1
    else if key[from] then from
    else FirstPressed(key, from + 1)
  }

  /** The `Fxkk` operations. */
  function Misc(s: State, x: nat, kk: byte): (r: State)
    requires Valid(s) && x < Registers
    requires kk == 0x33 ==> s.I + 2 < MemorySize
    requires kk == 0x55 || kk == 0x65 ==> s.I + x < MemorySize
    ensures Valid(r)
  {
    match kk
    case 0x07 => s.(V := s.V[x := s.delay])
    case 0x0A =>
      var k := FirstPressed(s.key, 0);
      // without a key, `PC -= 2` cancels the `PC += 2` that follows
      if k >= 0 then s.(V := s.V[x := k]) else s.(PC := Wrap16(s.PC - 2))
    case 0x15 => s.(delay := s.V[x])
    case 0x18 => s.(sound := s.V[x])
    case 0x1E => s.(I := Wrap16(s.I + s.V[x]))
    // `(V[x] & 0xF) * 5`: the address of the glyph of the low nibble of Vx
    case 0x29 => s.(I := (s.V[x] % 16) * 5)
    case 0x33 =>
      var v := s.V[x];
      s.(memory := s.memory[s.I := v / 100][s.I + 1 := (v / 10) % 10][s.I + 2 := v % 10])
    case 0x55 => s.(memory := s.memory[..s.I] + s.V[..x + 1] + s.memory[s.I + x + 1..])
    case 0x65 => s.(V := s.memory[s.I .. s.I + x + 1] + s.V[x + 1..])
    case _ => s
  }

  /** `update_timers`: each timer counts down by one and stops at zero. */
  function Tick(s: State): (r: State)
  {
    s.(delay := if s.delay > 0 then s.delay - 1 else 0,
       sound := if s.sound > 0 then s.sound - 1 else 0)
  }

  /** The instruction at PC can be fetched and executed. */
  predicate StepDefined(s: State)
    requires Valid(s)
  {
    s.PC + 1 < MemorySize && Defined(s, Fetch(s))
  }

  /** One fetch/execute cycle; `rnd` is the byte `rand() % 256` would give. */
  function Step(s: State, rnd: byte): (r: State)
    requires Valid(s) && StepDefined(s)
    ensures Valid(r)
  {
    Execute(s, Fetch(s), rnd)
  }

  /** Every cycle of a run of `|rnds|` cycles can be fetched and executed. */
  predicate RunDefined(s: State, rnds: seq<byte>)
    requires Valid(s)
    decreases |rnds|
  {
    |rnds| == 0 || (StepDefined(s) && RunDefined(Step(s, rnds[0]), rnds[1..]))
  }

  /** `|rnds|` fetch/execute cycles, cycle i drawing the random byte `rnds[i]`. */
  function Run(s: State, rnds: seq<byte>): (r: State)
    requires Valid(s) && RunDefined(s, rnds)
    ensures Valid(r)
    decreases |rnds|
  {
    if |rnds| == 0 then s else Run(Step(s, rnds[0]), rnds[1..])
  }

  /** The frame of `main`: the keypad snapshot is in place, ten cycles run, the
      timers tick once. */
  predicate FrameDefined(s: State, keys: seq<bool>, rnds: seq<byte>)
    requires Valid(s)
  {
    |keys| == Keys && |rnds| == InstructionsPerFrame && RunDefined(s.(key := keys), rnds)
  }

  function Frame(s: State, keys: seq<bool>, rnds: seq<byte>): (r: State)
    requires Valid(s) && FrameDefined(s, keys, rnds)
    ensures Valid(r)
  {
    Tick(Run(s.(key := keys), rnds))
  }
}
