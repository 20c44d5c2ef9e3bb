/** What `execute_instruction`, `update_timers` and the frame loop of emulator.c
    guarantee, stated about the functions of module Chip8. */
module Chip8Properties {
  import opened Bits
  import opened Sprite
  import opened Chip8

  /** No key of the snapshot is pressed. */
  predicate NoKeyPressed(key: seq<bool>)
  {
    forall j :: 0 <= j < |key| ==> !key[j]
  }

  /** The forms of the 0, 8, E and F families that `execute_instruction` does not
      recognise. */
  predicate Unrecognised(inst: word)
  {
    match Family(inst)
    case 0x0 => inst != 0x00E0 && inst != 0x00EE
    case 0x8 => N(inst) !in {0x0, 0x1, 0x2, 0x3, 0x4, 0x5, 0x6, 0x7, 0xE}
    case 0xE => KK(inst) != 0x9E && KK(inst) != 0xA1
    case 0xF => KK(inst) !in {0x07, 0x0A, 0x15, 0x18, 0x1E, 0x29, 0x33, 0x55, 0x65}
    case _ => false
  }

  /** After `init_arch` the registers, timers, stack and screen are zero, the
      font is in place for `Fx29`, no key is down and the first fetch reads
      address 0x200. */
  lemma ResetReady()
    ensures var s := Reset();
      && s.PC == ProgramStart && s.I == 0 && s.delay == 0 && s.sound == 0 && s.SP == 0
      && (forall i :: 0 <= i < Registers ==> s.V[i] == 0)
      && (forall i :: 0 <= i < StackDepth ==> s.stack[i] == 0)
      && (forall c :: 0 <= c < Cells ==> s.display[c] == 0)
      && s.memory[..|FontSet|] == FontSet
      && (forall j :: |FontSet| <= j < MemorySize ==> s.memory[j] == 0)
      && Binary(s.display) && NoKeyPressed(s.key)
      && s.PC + 1 < MemorySize
      && Fetch(s) == 0
  {
    var s := Reset();
    assert s.memory[s.PC] == 0 && s.memory[s.PC + 1] == 0;
  }

  /** A program that fits lands byte for byte at 0x200; the rest of memory and
      every other field are untouched. */
  lemma LoadProgramPlaces(s: State, program: seq<byte>)
    requires Valid(s) && Fits(program)
    ensures var r := LoadProgram(s, program).value;
      && (forall j :: 0 <= j < MemorySize ==>
            r.memory[j] == if ProgramStart <= j < ProgramStart + |program| then program[j - ProgramStart] else s.memory[j])
      && r == s.(memory := r.memory)
  {
  }

  /** The size test of `read_program` as written lets through a file that the copy
      to 0x200 cannot hold: 3584 bytes end at 4096, past the 3840 bytes there are. */
  lemma SizeCheckTooLoose(s: State)
    requires Valid(s)
    ensures var program := seq(4096 - ProgramStart, _ => 0);
      && FitsAsWritten(program)
      && ProgramStart + |program| > MemorySize
      && LoadProgram(s, program).None?
  {
  }

  /** An unrecognised opcode only moves PC on by 2. */
  lemma UnrecognisedAdvances(s: State, inst: word, rnd: byte)
    requires Valid(s) && Unrecognised(inst)
    ensures Defined(s, inst)
    ensures Execute(s, inst, rnd) == s.(PC := Wrap16(s.PC + 2))
  {
  }

  /** Two `PC += 2` in a row are `PC += 4` on the 16-bit counter. */
  lemma AdvanceTwice(s: State)
    ensures Advance(Advance(s)) == s.(PC := Wrap16(s.PC + 4))
  {
  }

  // ---------------------------------------------------------------------------
  // Control flow

  /** `1nnn`: PC becomes nnn and nothing else changes. */
  lemma Jump(s: State, inst: word, rnd: byte)
    requires Valid(s) && Family(inst) == 0x1
    ensures Execute(s, inst, rnd) == s.(PC := NNN(inst))
    ensures Execute(s, inst, rnd).PC < 0x1000
  {
  }

  /** `Bnnn`: PC becomes nnn + V0, which needs no wrap in 16 bits. */
  lemma JumpOffset(s: State, inst: word, rnd: byte)
    requires Valid(s) && Family(inst) == 0xB
    ensures Execute(s, inst, rnd) == s.(PC := NNN(inst) + s.V[0])
    ensures Execute(s, inst, rnd).PC < 0x1000 + 0x100
  {
  }

  /** `2nnn`: the CALL's own address goes into the free slot, SP grows by one,
      PC becomes nnn. */
  lemma Call(s: State, inst: word, rnd: byte)
    requires Valid(s) && Family(inst) == 0x2 && s.SP < StackDepth
    ensures var r := Execute(s, inst, rnd);
      && r.stack[s.SP] == s.PC
      && (forall j :: 0 <= j < StackDepth && j != s.SP ==> r.stack[j] == s.stack[j])
      && r.SP == s.SP + 1
      && r.PC == NNN(inst)
      && r == s.(stack := r.stack, SP := r.SP, PC := r.PC)
  {
  }

  /** `00EE`: SP shrinks by one and PC becomes the slot it uncovers plus 2. */
  lemma Return(s: State, rnd: byte)
    requires Valid(s) && s.SP > 0
    ensures Defined(s, 0x00EE)
    ensures var r := Execute(s, 0x00EE, rnd);
      r == s.(SP := s.SP - 1, PC := Wrap16(s.stack[s.SP - 1] as int + 2))
  {
  }

  /** A CALL followed at once by a RET resumes after the CALL with the stack
      pointer restored; only the used stack slot keeps the return address. */
  lemma CallThenReturn(s: State, call: word, rnd: byte, rnd': byte)
    requires Valid(s) && Family(call) == 0x2 && s.SP < StackDepth
    ensures var c := Execute(s, call, rnd);
      && Defined(c, 0x00EE)
      && Execute(c, 0x00EE, rnd') == s.(stack := s.stack[s.SP := s.PC], PC := Wrap16(s.PC + 2))
  {
    Call(s, call, rnd);
    Return(Execute(s, call, rnd), rnd');
  }

  /** `3xkk`/`4xkk`: skip the next instruction when Vx equals (differs from) kk. */
  lemma SkipOnByte(s: State, inst: word, rnd: byte)
    requires Valid(s) && (Family(inst) == 0x3 || Family(inst) == 0x4)
    ensures var skip := (s.V[X(inst)] == KK(inst)) == (Family(inst) == 0x3);
      Execute(s, inst, rnd) == s.(PC := Wrap16(s.PC + if skip then 4 else 2))
  {
  }

  /** `5xy_`/`9xy_`: skip when Vx equals (differs from) Vy; the low nibble is not looked at. */
  lemma SkipOnRegister(s: State, inst: word, rnd: byte)
    requires Valid(s) && (Family(inst) == 0x5 || Family(inst) == 0x9)
    ensures var skip := (s.V[X(inst)] == s.V[Y(inst)]) == (Family(inst) == 0x5);
      Execute(s, inst, rnd) == s.(PC := Wrap16(s.PC + if skip then 4 else 2))
  {
  }

  /** `Ex9E`/`ExA1`: skip when the key named by the low nibble of Vx is (is not) pressed. */
  lemma SkipOnKey(s: State, inst: word, rnd: byte)
    requires Valid(s) && Family(inst) == 0xE && (KK(inst) == 0x9E || KK(inst) == 0xA1)
    ensures var skip := s.key[s.V[X(inst)] % 16] == (KK(inst) == 0x9E);
      Execute(s, inst, rnd) == s.(PC := Wrap16(s.PC + if skip then 4 else 2))
  {
  }

  // ---------------------------------------------------------------------------
  // Registers

  /** `6xkk`, `7xkk`, `Annn`: loads and the add without carry leave the flag alone. */
  lemma LoadAndAddByte(s: State, inst: word, rnd: byte)
    requires Valid(s) && (Family(inst) == 0x6 || Family(inst) == 0x7 || Family(inst) == 0xA)
    ensures var r := Execute(s, inst, rnd); var x := X(inst);
      match Family(inst)
      case 0x6 => r == s.(V := s.V[x := KK(inst)], PC := Wrap16(s.PC + 2))
      case 0x7 => r == s.(V := s.V[x := (s.V[x] + KK(inst)) % 0x100], PC := Wrap16(s.PC + 2))
      case _ => r == s.(I := NNN(inst), PC := Wrap16(s.PC + 2))
  {
  }

  lemma {:induction false} AndBitsBelow(a: nat, b: nat, k: nat)
    requires b < Pow2(k)
    ensures AndBits(a, b, k) <= b
  {
    if k > 0 {
      AndBitsBelow(a / 2, b / 2, k - 1);
    }
  }

  /** `Cxkk`: Vx becomes the random byte masked by kk, never above kk. */
  lemma RandomMasked(s: State, inst: word, rnd: byte)
    requires Valid(s) && Family(inst) == 0xC
    ensures var r := Execute(s, inst, rnd);
      && r == s.(V := s.V[X(inst) := And8(rnd, KK(inst))], PC := Wrap16(s.PC + 2))
      && r.V[X(inst)] <= KK(inst)
  {
    AndBitsBelow(rnd, KK(inst), 8);
  }

  /** Every `8xyn` changes at most Vx and the flag, and moves PC on by 2. */
  lemma AluFrame(s: State, inst: word, rnd: byte)
    requires Valid(s) && Family(inst) == 0x8
    ensures var r := Execute(s, inst, rnd);
      && r == s.(V := r.V, PC := Wrap16(s.PC + 2))
      && (forall i :: 0 <= i < Registers && i != X(inst) && i != Flag ==> r.V[i] == s.V[i])
      && (N(inst) <= 3 && X(inst) != Flag ==> r.V[Flag] == s.V[Flag])
  {
  }

  /** `8xy4`: the sum modulo 256, and the carry in the flag. */
  lemma AddWithCarry(s: State, inst: word, rnd: byte)
    requires Valid(s) && Family(inst) == 0x8 && N(inst) == 0x4 && X(inst) != Flag
    ensures var r := Execute(s, inst, rnd); var vx, vy := s.V[X(inst)], s.V[Y(inst)];
      && r.V[X(inst)] == (vx as int + vy) % 0x100
      && r.V[Flag] == (if vx as int + vy > 0xFF then 1 else 0)
      && r.V == s.V[Flag := r.V[Flag]][X(inst) := r.V[X(inst)]]
  {
  }

  /** `8xF4`: the sum lands in V[0xF] and the carry is lost. */
  lemma AddIntoFlag(s: State, inst: word, rnd: byte)
    requires Valid(s) && Family(inst) == 0x8 && N(inst) == 0x4 && X(inst) == Flag
    ensures Execute(s, inst, rnd).V == s.V[Flag := (s.V[Flag] as int + s.V[Y(inst)]) % 0x100]
  {
  }

  /** `8xy5`: the difference modulo 256; the flag is 1 exactly when Vx > Vy (strictly). */
  lemma SubWithBorrow(s: State, inst: word, rnd: byte)
    requires Valid(s) && Family(inst) == 0x8 && N(inst) == 0x5 && X(inst) != Flag && Y(inst) != Flag
    ensures var r := Execute(s, inst, rnd); var vx, vy := s.V[X(inst)], s.V[Y(inst)];
      && r.V[X(inst)] == (vx as int - vy) % 0x100
      && (r.V[Flag] == 1 <==> vx > vy)
      && (r.V[Flag] == 0 <==> vx <= vy)
      && r.V == s.V[Flag := r.V[Flag]][X(inst) := r.V[X(inst)]]
  {
  }

  /** `8xy7`: Vy - Vx modulo 256; the flag is 1 exactly when Vy > Vx (strictly). */
  lemma ReverseSubWithBorrow(s: State, inst: word, rnd: byte)
    requires Valid(s) && Family(inst) == 0x8 && N(inst) == 0x7 && X(inst) != Flag && Y(inst) != Flag
    ensures var r := Execute(s, inst, rnd); var vx, vy := s.V[X(inst)], s.V[Y(inst)];
      && r.V[X(inst)] == (vy as int - vx) % 0x100
      && (r.V[Flag] == 1 <==> vy > vx)
      && (r.V[Flag] == 0 <==> vy <= vx)
      && r.V == s.V[Flag := r.V[Flag]][X(inst) := r.V[X(inst)]]
  {
  }

  /** `8xF5`: with Vy = V[0xF], the subtraction takes the flag just written, not
      the old V[0xF]. */
  lemma SubReadsNewFlag(s: State, inst: word, rnd: byte)
    requires Valid(s) && Family(inst) == 0x8 && N(inst) == 0x5 && X(inst) != Flag && Y(inst) == Flag
    ensures var r := Execute(s, inst, rnd); var vx := s.V[X(inst)];
      var f := if vx > s.V[Flag] then 1 else 0;
      r.V[Flag] == f && r.V[X(inst)] == (vx as int - f) % 0x100
  {
  }

  /** `8xy6`/`8xyE`: the bit shifted out goes to the flag; Vy is not used. */
  lemma Shifts(s: State, inst: word, rnd: byte)
    requires Valid(s) && Family(inst) == 0x8 && (N(inst) == 0x6 || N(inst) == 0xE) && X(inst) != Flag
    ensures var r := Execute(s, inst, rnd); var vx := s.V[X(inst)];
      if N(inst) == 0x6 then r.V[Flag] == vx % 2 && r.V[X(inst)] == vx / 2
      else r.V[Flag] == vx / 0x80 && r.V[X(inst)] == (2 * vx as int) % 0x100
  {
  }

  /** `8xF6`/`8xFE`: shifting the flag register leaves only the shifted flag. */
  lemma ShiftFlagRegister(s: State, inst: word, rnd: byte)
    requires Valid(s) && Family(inst) == 0x8 && (N(inst) == 0x6 || N(inst) == 0xE) && X(inst) == Flag
    ensures var r := Execute(s, inst, rnd);
      r.V[Flag] == (if N(inst) == 0x6 then 0 else 2 * (s.V[Flag] / 0x80))
  {
  }

  // ---------------------------------------------------------------------------
  // Display

  /** `00E0`: every cell goes dark; nothing else but PC changes. */
  lemma ClearScreen(s: State, rnd: byte)
    requires Valid(s)
    ensures var r := Execute(s, 0x00E0, rnd);
      && (forall c :: 0 <= c < Cells ==> r.display[c] == 0)
      && r == s.(display := r.display, PC := Wrap16(s.PC + 2))
  {
  }

  /** `Dxyn` goes through `Draw` and then moves PC on by 2. */
  lemma DrawStep(s: State, inst: word, rnd: byte)
    requires Valid(s) && Defined(s, inst) && Family(inst) == 0xD
    ensures var sx, sy, n := s.V[X(inst)] % Width, s.V[Y(inst)] % Height, N(inst);
      var sprite := SpriteAt(s, n);
      && Execute(s, inst, rnd) == s.(V := s.V[Flag := if Collides(s.display, sprite, sx, sy, 8 * n) then 1 else 0],
                                      display := Blit(s.display, sprite, sx, sy, 8 * n),
                                      PC := Wrap16(s.PC + 2))
      && (forall row :: 0 <= row < n ==> sprite[row] == s.memory[s.I + row])
  {
  }

  /** `Dxyn` on the cells: each pixel of row `row`, column `col` of the sprite at I
      lands on ((Vx mod 64 + col) mod 64, (Vy mod 32 + row) mod 32) and toggles
      that cell when set; a cell no set pixel lands on keeps its value; only the
      display, the flag and PC change. */
  lemma DrawCells(s: State, inst: word, rnd: byte)
    requires Valid(s) && Defined(s, inst) && Family(inst) == 0xD
    ensures var r := Execute(s, inst, rnd);
      var sx, sy, n := s.V[X(inst)] % Width, s.V[Y(inst)] % Height, N(inst);
      && r == s.(V := s.V[Flag := r.V[Flag]], display := r.display, PC := Wrap16(s.PC + 2))
      && (forall row, col :: 0 <= row < n && 0 <= col < 8 ==>
            r.display[ScreenCell(sx, sy, row, col)] ==
              if BitAt(s.memory[s.I + row], col)
              then Xor8(s.display[ScreenCell(sx, sy, row, col)], 1)
              else s.display[ScreenCell(sx, sy, row, col)])
      && (forall c :: 0 <= c < Cells && r.display[c] != s.display[c] ==>
            exists row, col :: 0 <= row < n && 0 <= col < 8 && BitAt(s.memory[s.I + row], col) &&
              c == ScreenCell(sx, sy, row, col))
  {
    DrawStep(s, inst, rnd);
    var sx, sy, n := s.V[X(inst)] % Width, s.V[Y(inst)] % Height, N(inst);
    BlitRows(s.display, SpriteAt(s, n), sx, sy);
  }

  /** `Dxyn` on the flag: V[0xF] is 1 exactly when some set pixel of the sprite
      lands on a cell that was lit, and 0 otherwise. */
  lemma DrawCollision(s: State, inst: word, rnd: byte)
    requires Valid(s) && Defined(s, inst) && Family(inst) == 0xD
    ensures var r := Execute(s, inst, rnd);
      var sx, sy, n := s.V[X(inst)] % Width, s.V[Y(inst)] % Height, N(inst);
      r.V[Flag] == if exists row, col :: 0 <= row < n && 0 <= col < 8 && BitAt(s.memory[s.I + row], col) &&
                         s.display[ScreenCell(sx, sy, row, col)] != 0
                   then 1 else 0
  {
    DrawStep(s, inst, rnd);
    var sx, sy, n := s.V[X(inst)] % Width, s.V[Y(inst)] % Height, N(inst);
    CollidesRows(s.display, SpriteAt(s, n), sx, sy);
  }

  /** `Dxyn` is `Draw` followed by the PC advance. */
  lemma ExecuteIsDraw(s: State, inst: word, rnd: byte)
    requires Valid(s) && Defined(s, inst) && Family(inst) == 0xD
    ensures Execute(s, inst, rnd) == Advance(Draw(s, X(inst), Y(inst), N(inst)))
  {
  }

  /** `Draw` neither reads nor writes PC. */
  lemma DrawIgnoresPC(s: State, x: nat, y: nat, n: nat)
    requires Valid(s) && x < Registers && y < Registers && n < 16
    requires n == 0 || s.I + n <= MemorySize
    ensures Draw(Advance(s), x, y, n) == Advance(Draw(s, x, y, n))
  {
  }

  /** The same sprite drawn twice from registers other than the flag leaves the
      display as it was; only V[0xF] may differ. */
  lemma DrawDrawRestores(s: State, x: nat, y: nat, n: nat)
    requires Valid(s) && x < Registers && y < Registers && n < 16 && x != Flag && y != Flag
    requires n == 0 || s.I + n <= MemorySize
    ensures var twice := Draw(Draw(s, x, y, n), x, y, n);
      && twice.display == s.display
      && twice == s.(V := s.V[Flag := twice.V[Flag]])
  {
    var once := Draw(s, x, y, n);
    assert once.V[x] == s.V[x] && once.V[y] == s.V[y];
    assert SpriteAt(once, n) == SpriteAt(s, n);
    BlitTwice(s.display, SpriteAt(s, n), s.V[x] % Width, s.V[y] % Height);
  }

  /** The same `Dxyn` twice restores the display, when neither coordinate
      register is the flag the first draw overwrites. */
  lemma DrawTwiceRestores(s: State, inst: word, rnd: byte, rnd': byte)
    requires Valid(s) && Defined(s, inst) && Family(inst) == 0xD && X(inst) != Flag && Y(inst) != Flag
    ensures var once := Execute(s, inst, rnd);
      && Defined(once, inst)
      && var twice := Execute(once, inst, rnd');
      && twice.display == s.display
      && twice == s.(V := twice.V, PC := Wrap16(s.PC + 4))
      && twice.V == s.V[Flag := twice.V[Flag]]
  {
    var x, y, n := X(inst), Y(inst), N(inst);
    var drawn := Draw(s, x, y, n);
    ExecuteIsDraw(s, inst, rnd);
    var once := Advance(drawn);
    assert once.I == s.I;
    ExecuteIsDraw(once, inst, rnd');
    DrawIgnoresPC(drawn, x, y, n);
    DrawDrawRestores(s, x, y, n);
    AdvanceTwice(Draw(drawn, x, y, n));
  }

  /** Only `00E0` and `Dxyn` touch the display, and both keep every cell 0 or 1. */
  lemma ExecuteKeepsBinary(s: State, inst: word, rnd: byte)
    requires Valid(s) && Defined(s, inst) && Binary(s.display)
    ensures Binary(Execute(s, inst, rnd).display)
    ensures Family(inst) != 0xD && inst != 0x00E0 ==> Execute(s, inst, rnd).display == s.display
  {
    if Family(inst) == 0xD {
      var sx, sy, n := s.V[X(inst)] % Width, s.V[Y(inst)] % Height, N(inst);
      BlitKeepsBinary(s.display, SpriteAt(s, n), sx, sy, 8 * n);
    }
  }

  // ---------------------------------------------------------------------------
  // Memory, index register, keypad, timers

  /** `Fx29`: I points at the 5-byte glyph of the low nibble of Vx, inside the font. */
  lemma FontGlyph(s: State, inst: word, rnd: byte)
    requires Valid(s) && Family(inst) == 0xF && KK(inst) == 0x29 && s.memory[..|FontSet|] == FontSet
    ensures var r := Execute(s, inst, rnd); var d := s.V[X(inst)] % 16;
      && r == s.(I := 5 * d, PC := Wrap16(s.PC + 2))
      && r.I + 5 <= |FontSet|
      && r.memory[r.I .. r.I + 5] == FontSet[5 * d .. 5 * d + 5]
  {
    ExecuteIsMisc(s, inst, rnd);
    var d := s.V[X(inst)] % 16;
    assert s.memory[5 * d .. 5 * d + 5] == s.memory[..|FontSet|][5 * d .. 5 * d + 5];
  }

  /** `Fx1E`: I grows by Vx modulo 2^16 and the flag is not touched. */
  lemma AddToIndex(s: State, inst: word, rnd: byte)
    requires Valid(s) && Family(inst) == 0xF && KK(inst) == 0x1E
    ensures Execute(s, inst, rnd) == s.(I := (s.I + s.V[X(inst)]) % 0x1_0000, PC := Wrap16(s.PC + 2))
  {
  }

  /** An `Fxkk` instruction is `Misc` followed by the PC advance. */
  lemma ExecuteIsMisc(s: State, inst: word, rnd: byte)
    requires Valid(s) && Defined(s, inst) && Family(inst) == 0xF
    ensures Execute(s, inst, rnd) == Advance(Misc(s, X(inst), KK(inst)))
  {
  }

  /** The three decimal digits of a byte. */
  lemma Digits(v: byte)
    ensures v / 100 < 10 && (v / 10) % 10 < 10 && v % 10 < 10
    ensures 100 * (v / 100) + 10 * ((v / 10) % 10) + v % 10 == v
  {
  }

  /** `Fx33`: three decimal digits of Vx, most significant first, at I..I+2;
      no other memory cell changes. */
  lemma Bcd(s: State, inst: word, rnd: byte)
    requires Valid(s) && Family(inst) == 0xF && KK(inst) == 0x33 && s.I + 2 < MemorySize
    ensures var r := Execute(s, inst, rnd);
      var d0, d1, d2 := r.memory[s.I], r.memory[s.I + 1], r.memory[s.I + 2];
      && d0 < 10 && d1 < 10 && d2 < 10
      && 100 * d0 + 10 * d1 + d2 == s.V[X(inst)]
      && (forall j :: 0 <= j < MemorySize && !(s.I <= j <= s.I + 2) ==> r.memory[j] == s.memory[j])
      && r == s.(memory := r.memory, PC := Wrap16(s.PC + 2))
  {
    ExecuteIsMisc(s, inst, rnd);
    Digits(s.V[X(inst)]);
  }

  /** `Fx55`: V0..Vx are written to I..I+x and no other memory cell changes. */
  lemma StoreRegisterBlock(s: State, store: word, rnd: byte)
    requires Valid(s) && Family(store) == 0xF && KK(store) == 0x55 && s.I + X(store) < MemorySize
    ensures var stored := Execute(s, store, rnd); var x := X(store);
      && stored.memory == s.memory[..s.I] + s.V[..x + 1] + s.memory[s.I + x + 1..]
      && (forall j :: 0 <= j < MemorySize ==>
            stored.memory[j] == if s.I <= j <= s.I + x then s.V[j - s.I] else s.memory[j])
      && stored == s.(memory := stored.memory, PC := Wrap16(s.PC + 2))
  {
  }

  /** `Fx65`: V0..Vx are read from I..I+x and Vx+1..VF keep their values. */
  lemma LoadRegisterBlock(s: State, load: word, rnd: byte)
    requires Valid(s) && Family(load) == 0xF && KK(load) == 0x65 && s.I + X(load) < MemorySize
    ensures var x := X(load);
      Execute(s, load, rnd) == s.(V := s.memory[s.I .. s.I + x + 1] + s.V[x + 1..], PC := Wrap16(s.PC + 2))
  {
  }

  /** `Fx55` then `Fx65` with the same x: the store writes V0..Vx to I..I+x and
      nothing else, the load gives back the same registers, and I never moves. */
  lemma StoreThenLoad(s: State, store: word, load: word, rnd: byte, rnd': byte)
    requires Valid(s) && Family(store) == 0xF && KK(store) == 0x55
    requires Family(load) == 0xF && KK(load) == 0x65 && X(load) == X(store)
    requires s.I + X(store) < MemorySize
    ensures var stored := Execute(s, store, rnd); var x := X(store);
      && (forall j :: 0 <= j < MemorySize ==>
            stored.memory[j] == if s.I <= j <= s.I + x then s.V[j - s.I] else s.memory[j])
      && stored == s.(memory := stored.memory, PC := Wrap16(s.PC + 2))
      && Defined(stored, load)
      && Execute(stored, load, rnd') == stored.(PC := Wrap16(stored.PC + 2))
  {
    StoreRegisterBlock(s, store, rnd);
    var stored := Execute(s, store, rnd);
    var x := X(store);
    LoadRegisterBlock(stored, load, rnd');
    assert stored.memory[s.I .. s.I + x + 1] == s.V[..x + 1];
    assert s.V[..x + 1] + s.V[x + 1..] == s.V;
  }

  /** `Fx0A` with no key pressed: the `PC -= 2` and the `PC += 2` cancel, so the
      machine is exactly as before and the same instruction runs again. */
  lemma KeyWaitIdle(s: State, inst: word, rnd: byte)
    requires Valid(s) && Family(inst) == 0xF && KK(inst) == 0x0A && NoKeyPressed(s.key)
    ensures Execute(s, inst, rnd) == s
  {
  }

  /** `Fx0A` with a key pressed: Vx becomes the lowest pressed key and PC moves on. */
  lemma KeyWaitPressed(s: State, inst: word, rnd: byte)
    requires Valid(s) && Family(inst) == 0xF && KK(inst) == 0x0A && !NoKeyPressed(s.key)
    ensures var r := Execute(s, inst, rnd); var k := r.V[X(inst)];
      && k < Keys && s.key[k]
      && (forall j :: 0 <= j < k ==> !s.key[j])
      && r == s.(V := s.V[X(inst) := k], PC := Wrap16(s.PC + 2))
  {
  }

  /** `Fx07`, `Fx15`, `Fx18`: the timers are read and written through Vx. */
  lemma TimerRegisters(s: State, inst: word, rnd: byte)
    requires Valid(s) && Family(inst) == 0xF && (KK(inst) == 0x07 || KK(inst) == 0x15 || KK(inst) == 0x18)
    ensures var r := Execute(s, inst, rnd); var x := X(inst);
      if KK(inst) == 0x07 then r == s.(V := s.V[x := s.delay], PC := Wrap16(s.PC + 2))
      else if KK(inst) == 0x15 then r == s.(delay := s.V[x], PC := Wrap16(s.PC + 2))
      else r == s.(sound := s.V[x], PC := Wrap16(s.PC + 2))
  {
  }

  /** No instruction writes the keypad: it holds the host's snapshot. */
  lemma ExecuteKeepsKeys(s: State, inst: word, rnd: byte)
    requires Valid(s) && Defined(s, inst)
    ensures Execute(s, inst, rnd).key == s.key
  {
  }

  /** `k` timer updates in a row. */
  function Ticks(s: State, k: nat): State
  {
    if k == 0 then s else Tick(Ticks(s, k - 1))
  }

  /** Timers count down by one per update and stay at zero; nothing else changes. */
  lemma {:induction false} TicksCountDown(s: State, k: nat)
    ensures var r := Ticks(s, k);
      && r.delay == (if s.delay > k then s.delay - k else 0)
      && r.sound == (if s.sound > k then s.sound - k else 0)
      && r == s.(delay := r.delay, sound := r.sound)
  {
    if k > 0 {
      TicksCountDown(s, k - 1);
    }
  }

  // ---------------------------------------------------------------------------
  // Runs and frames

  /** Every cycle of a run sees the same keypad. */
  lemma {:induction false} RunKeepsKeys(s: State, rnds: seq<byte>)
    requires Valid(s) && RunDefined(s, rnds)
    ensures Run(s, rnds).key == s.key
    decreases |rnds|
  {
    if |rnds| > 0 {
      ExecuteKeepsKeys(s, Fetch(s), rnds[0]);
      RunKeepsKeys(Step(s, rnds[0]), rnds[1..]);
    }
  }

  /** A machine waiting in `Fx0A` with no key pressed stays exactly where it is
      for any number of cycles. */
  lemma {:induction false} WaitingRun(s: State, rnds: seq<byte>)
    requires Valid(s) && s.PC + 1 < MemorySize && NoKeyPressed(s.key)
    requires Family(Fetch(s)) == 0xF && KK(Fetch(s)) == 0x0A
    ensures RunDefined(s, rnds) && Run(s, rnds) == s
    decreases |rnds|
  {
    if |rnds| > 0 {
      KeyWaitIdle(s, Fetch(s), rnds[0]);
      WaitingRun(s, rnds[1..]);
    }
  }

  /** A frame spent waiting for a key changes nothing but the timers. */
  lemma WaitingFrame(s: State, keys: seq<bool>, rnds: seq<byte>)
    requires Valid(s) && s.PC + 1 < MemorySize
    requires Family(Fetch(s)) == 0xF && KK(Fetch(s)) == 0x0A
    requires |keys| == Keys && NoKeyPressed(keys) && |rnds| == InstructionsPerFrame
    ensures FrameDefined(s, keys, rnds)
    ensures Frame(s, keys, rnds) == Tick(s.(key := keys))
  {
    WaitingRun(s.(key := keys), rnds);
  }

  /** The keypad after a frame is the snapshot the frame was given. */
  lemma FrameKeepsSnapshot(s: State, keys: seq<bool>, rnds: seq<byte>)
    requires Valid(s) && FrameDefined(s, keys, rnds)
    ensures Frame(s, keys, rnds).key == keys
  {
    RunKeepsKeys(s.(key := keys), rnds);
  }
}
