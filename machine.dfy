/** The interpreter of emulator.c as it runs: `struct chip_8` as an object whose
    array fields the steps update in place. Every method is proved to do what
    the corresponding function of module Chip8 says, on the record `Snapshot()`
    made of the current fields. */
module Interpreter {
  import opened Bits
  import opened Sprite
  import opened Chip8

  class Machine {
    const V: array<byte>
    var I: word
    var delay: byte
    var sound: byte
    var PC: word
    const stack: array<word>
    var SP: byte
    const memory: array<byte>
    const display: array<byte>
    const key: array<bool>

    /** The arrays have the sizes of the C record and the three byte arrays are
        distinct. */
    ghost predicate Shaped()
      reads this
    {
      && V.Length == Registers
      && stack.Length == StackDepth
      && memory.Length == MemorySize
      && display.Length == Cells
      && key.Length == Keys
      && V != memory && V != display && memory != display
    }

    /** A record in a usable state: SP indexes at most one past the last stack slot. */
    ghost predicate Valid()
      reads this
    {
      Shaped() && SP <= StackDepth
    }

    /** The current contents of the record. */
    ghost function Snapshot(): (s: State)
      reads this, V, stack, memory, display, key
      requires Valid()
      ensures Chip8.Valid(s)
    {
      State(V[..], I, delay, sound, PC, stack[..], SP, memory[..], display[..], key[..])
    }

    /** A fresh record on which `init_arch` has run. */
    constructor ()
      ensures Valid() && Snapshot() == Reset()
      ensures fresh(V) && fresh(stack) && fresh(memory) && fresh(display) && fresh(key)
    {
      V := new byte[Registers];
      stack := new word[StackDepth];
      memory := new byte[MemorySize];
      display := new byte[Cells];
      key := new bool[Keys];
      new;
      InitArch();
    }

    /** `init_arch`: clear every field, then `load_fontset`. */
    method InitArch()
      requires Shaped()
      modifies this, V, stack, memory, display, key
      ensures Valid() && Snapshot() == Reset()
    {
      I, delay, sound, SP, PC := 0, 0, 0, 0, ProgramStart;
      forall i | 0 <= i < V.Length {
        V[i] := 0;
      }
      forall i | 0 <= i < stack.Length {
        stack[i] := 0;
      }
      forall i | 0 <= i < memory.Length {
        memory[i] := 0;
      }
      forall i | 0 <= i < key.Length {
        key[i] := false;
      }
      forall i | 0 <= i < display.Length {
        display[i] := 0;
      }
      LoadFontset();
      assert memory[..] == FontSet + seq(MemorySize - |FontSet|, _ => 0);
    }

    /** `load_fontset`: copy the 80 font bytes to address 0. */
    method LoadFontset()
      requires Valid()
      modifies memory
      ensures memory[..|FontSet|] == FontSet
      ensures memory[|FontSet|..] == old(memory[|FontSet|..])
    {
      for i := 0 to |FontSet|
        invariant forall j :: 0 <= j < i ==> memory[j] == FontSet[j]
        invariant forall j :: |FontSet| <= j < memory.Length ==> memory[j] == old(memory[j])
      {
        memory[i] := FontSet[i];
      }
    }

    /** `read_program` on the bytes of the file, with the size check of `Fits`:
        -1 when the program does not fit, otherwise its length, with the program
        copied to 0x200. */
    method ReadProgram(program: seq<byte>) returns (len: int)
      requires Valid()
      modifies memory
      ensures Valid()
      ensures len == if Fits(program) then |program| else -1
      ensures LoadProgram(old(Snapshot()), program) == if Fits(program) then Some(Snapshot()) else None
      ensures !Fits(program) ==> Snapshot() == old(Snapshot())
    {
      if !Fits(program) {
        return -1;
      }
      for i := 0 to |program|
        invariant forall j :: 0 <= j < memory.Length ==>
          memory[j] == if ProgramStart <= j < ProgramStart + i then program[j - ProgramStart] else old(memory[j])
      {
        memory[ProgramStart + i] := program[i];
      }
      assert memory[..] == old(memory[..ProgramStart]) + program + old(memory[ProgramStart + |program|..]);
      len := |program|;
    }

    /** `fetch_instr`. */
    function FetchInstr(): (inst: word)
      reads this, V, stack, memory, display, key
      requires Valid() && PC + 1 < MemorySize
      ensures inst == Fetch(Snapshot())
    {
      (memory[PC] as int) * 0x100 + memory[PC + 1]
    }

    /** The scan of `Fx0A`: the lowest index of a pressed key, or -1. */
    method PressedKey() returns (k: int)
      requires Valid()
      ensures k == FirstPressed(key[..], 0)
    {
      k := -1;
      var i := 0;
      while i < Keys
        invariant 0 <= i <= Keys
        invariant forall j :: 0 <= j < i ==> !key[j]
      {
        if key[i] {
          k := i;
          return;
        }
        i := i + 1;
      }
    }

    /** `execute_instruction(arch, inst)`, with `rnd` standing for `rand() % 256`. */
    method Execute(inst: word, rnd: byte)
      requires Valid() && Defined(Snapshot(), inst)
      modifies this, V, stack, memory, display
      ensures Valid() && Snapshot() == Chip8.Execute(old(Snapshot()), inst, rnd)
    {
      var family := Family(inst);
      if family == 0x1 {
        PC := NNN(inst);
        return;
      } else if family == 0x2 {
        stack[SP] := PC;
        SP := SP + 1;
        PC := NNN(inst);
        return;
      } else if family == 0xB {
        PC := NNN(inst) + V[0];
        return;
      }
      ExecuteEffect(inst, rnd);
      PC := Wrap16(PC + 2);
    }

    /** The cases of `execute_instruction` that `break`. */
    method ExecuteEffect(inst: word, rnd: byte)
      requires Valid() && Defined(Snapshot(), inst)
      requires Family(inst) != 0x1 && Family(inst) != 0x2 && Family(inst) != 0xB
      modifies this, V, memory, display
      ensures Valid() && Snapshot() == Effect(old(Snapshot()), inst, rnd)
    {
      var x, y, n, kk, nnn := X(inst), Y(inst), N(inst), KK(inst), NNN(inst);
      var family := Family(inst);
      if family == 0x0 {
        if inst == 0x00E0 {
          forall i | 0 <= i < display.Length {
            display[i] := 0;
          }
        } else if inst == 0x00EE {
          SP := SP - 1;
          PC := stack[SP];
        }
      } else if family == 0x3 {
        if V[x] == kk {
          PC := Wrap16(PC + 2);
        }
      } else if family == 0x4 {
        if V[x] != kk {
          PC := Wrap16(PC + 2);
        }
      } else if family == 0x5 {
        if V[x] == V[y] {
          PC := Wrap16(PC + 2);
        }
      } else if family == 0x6 {
        V[x] := kk;
      } else if family == 0x7 {
        V[x] := ((V[x] as int) + kk) % 0x100;
      } else if family == 0x8 {
        ExecuteAlu(x, y, n);
      } else if family == 0x9 {
        if V[x] != V[y] {
          PC := Wrap16(PC + 2);
        }
      } else if family == 0xA {
        I := nnn;
      } else if family == 0xC {
        V[x] := And8(rnd, kk);
      } else if family == 0xD {
        DrawSprite(x, y, n);
      } else if family == 0xE {
        if kk == 0x9E {
          if key[V[x] % 16] {
            PC := Wrap16(PC + 2);
          }
        } else if kk == 0xA1 {
          if !key[V[x] % 16] {
            PC := Wrap16(PC + 2);
          }
        }
      } else {
        ExecuteMisc(x, kk);
      }
    }

    /** The `8xyn` cases: the flag is stored before the result. */
    method ExecuteAlu(x: nat, y: nat, n: nat)
      requires Valid() && x < Registers && y < Registers
      modifies V
      ensures Valid() && Snapshot() == Alu(old(Snapshot()), x, y, n)
    {
      if n == 0x0 {
        V[x] := V[y];
      } else if n == 0x1 {
        V[x] := Or8(V[x], V[y]);
      } else if n == 0x2 {
        V[x] := And8(V[x], V[y]);
      } else if n == 0x3 {
        V[x] := Xor8(V[x], V[y]);
      } else if n == 0x4 {
        var sum := (V[x] as int) + V[y];
        V[Flag] := if sum > 0xFF then 1 else 0;
        V[x] := sum % 0x100;
      } else if n == 0x5 {
        V[Flag] := if V[x] > V[y] then 1 else 0;
        V[x] := ((V[x] as int) - V[y]) % 0x100;
      } else if n == 0x6 {
        V[Flag] := V[x] % 2;
        V[x] := V[x] / 2;
      } else if n == 0x7 {
        V[Flag] := if V[y] > V[x] then 1 else 0;
        V[x] := ((V[y] as int) - V[x]) % 0x100;
      } else if n == 0xE {
        V[Flag] := if V[x] >= 0x80 then 1 else 0;
        V[x] := ((V[x] as int) * 2) % 0x100;
      }
    }

    /** `Dxyn`: the start coordinates wrap, the flag is cleared, then the two
        nested loops over the sprite's rows and columns. */
    method DrawSprite(x: nat, y: nat, n: nat)
      requires Valid() && x < Registers && y < Registers && n < 16
      requires n == 0 || I + n <= MemorySize
      modifies V, display
      ensures Valid() && Snapshot() == Draw(old(Snapshot()), x, y, n)
    {
      ghost var s0 := Snapshot();
      var xCoord := V[x] % Width;
      var yCoord := V[y] % Height;
      V[Flag] := 0;
      ghost var sprite := SpriteAt(s0, n);
      DrawRows(n, xCoord, yCoord, s0.display, s0.V, sprite);
      assert V[..] == Draw(s0, x, y, n).V;
      assert display[..] == Draw(s0, x, y, n).display;
    }

    /** The loops of `Dxyn` over rows and then columns of the sprite. */
    method DrawRows(n: nat, xCoord: nat, yCoord: nat,
                    ghost d0: seq<byte>, ghost v0: seq<byte>, ghost sprite: seq<byte>)
      requires Valid() && n < 16 && |sprite| == n && xCoord < Width && yCoord < Height
      requires n == 0 || I + n <= MemorySize
      requires sprite == if n == 0 then [] else memory[I .. I + n]
      requires |d0| == Cells && |v0| == Registers
      requires display[..] == d0 && V[..] == v0[Flag := 0]
      modifies V, display
      ensures display[..] == Blit(d0, sprite, xCoord, yCoord, 8 * n)
      ensures V[..] == v0[Flag := if Collides(d0, sprite, xCoord, yCoord, 8 * n) then 1 else 0]
    {
      for row := 0 to n
        invariant display[..] == Blit(d0, sprite, xCoord, yCoord, 8 * row)
        invariant V[..] == v0[Flag := if Collides(d0, sprite, xCoord, yCoord, 8 * row) then 1 else 0]
      {
        var spriteByte := memory[I + row];
        DrawRow(spriteByte, row, xCoord, yCoord, d0, v0, sprite);
      }
    }

    /** One pass of the outer loop of `Dxyn`: the eight pixels of sprite row `row`. */
    method DrawRow(spriteByte: byte, row: nat, xCoord: nat, yCoord: nat,
                   ghost d0: seq<byte>, ghost v0: seq<byte>, ghost sprite: seq<byte>)
      requires Valid() && row < |sprite| && spriteByte == sprite[row]
      requires xCoord < Width && yCoord < Height && |d0| == Cells && |v0| == Registers
      requires display[..] == Blit(d0, sprite, xCoord, yCoord, 8 * row)
      requires V[..] == v0[Flag := if Collides(d0, sprite, xCoord, yCoord, 8 * row) then 1 else 0]
      modifies V, display
      ensures display[..] == Blit(d0, sprite, xCoord, yCoord, 8 * (row + 1))
      ensures V[..] == v0[Flag := if Collides(d0, sprite, xCoord, yCoord, 8 * (row + 1)) then 1 else 0]
    {
      for col := 0 to 8
        invariant display[..] == Blit(d0, sprite, xCoord, yCoord, 8 * row + col)
        invariant V[..] == v0[Flag := if Collides(d0, sprite, xCoord, yCoord, 8 * row + col) then 1 else 0]
      {
        DrawPixel(spriteByte, row, col, xCoord, yCoord, d0, v0, sprite);
      }
    }

    /** One pass of the inner loop of `Dxyn`: the pixel in column `col` of sprite
        row `row` is XORed into the display and may set the flag. */
    method DrawPixel(spriteByte: byte, row: nat, col: nat, xCoord: nat, yCoord: nat,
                     ghost d0: seq<byte>, ghost v0: seq<byte>, ghost sprite: seq<byte>)
      requires Valid() && col < 8 && row < |sprite| && spriteByte == sprite[row]
      requires xCoord < Width && yCoord < Height && |d0| == Cells && |v0| == Registers
      requires display[..] == Blit(d0, sprite, xCoord, yCoord, 8 * row + col)
      requires V[..] == v0[Flag := if Collides(d0, sprite, xCoord, yCoord, 8 * row + col) then 1 else 0]
      modifies V, display
      ensures display[..] == Blit(d0, sprite, xCoord, yCoord, 8 * row + col + 1)
      ensures V[..] == v0[Flag := if Collides(d0, sprite, xCoord, yCoord, 8 * row + col + 1) then 1 else 0]
    {
      ghost var p := 8 * row + col;
      assert p / 8 == row && p % 8 == col;
      var screenX := (xCoord + col) % Width;
      var screenY := (yCoord + row) % Height;
      var screenIndex := screenY * Width + screenX;
      assert screenIndex == PixelCell(xCoord, yCoord, p);
      if BitAt(spriteByte, col) {
        if display[screenIndex] != 0 {
          V[Flag] := 1;
        }
        display[screenIndex] := Xor8(display[screenIndex], 1);
      }
    }

    /** The `Fxkk` cases. */
    method ExecuteMisc(x: nat, kk: byte)
      requires Valid() && x < Registers
      requires kk == 0x33 ==> I + 2 < MemorySize
      requires kk == 0x55 || kk == 0x65 ==> I + x < MemorySize
      modifies this, V, memory
      ensures Valid() && Snapshot() == Misc(old(Snapshot()), x, kk)
    {
      if kk == 0x07 {
        V[x] := delay;
      } else if kk == 0x0A {
        var keyPressed := PressedKey();
        if keyPressed >= 0 {
          V[x] := keyPressed;
        } else {
          PC := Wrap16(PC - 2);
        }
      } else if kk == 0x15 {
        delay := V[x];
      } else if kk == 0x18 {
        sound := V[x];
      } else if kk == 0x1E {
        I := Wrap16(I + V[x]);
      } else if kk == 0x29 {
        I := (V[x] % 16) * 5;
      } else if kk == 0x33 {
        StoreBcd(V[x]);
      } else if kk == 0x55 {
        StoreRegisters(x);
      } else if kk == 0x65 {
        LoadRegisters(x);
      }
    }

    /** `Fx33`: hundreds, tens and units of `value` at I, I+1 and I+2. */
    method StoreBcd(value: byte)
      requires Valid() && I + 2 < MemorySize
      modifies memory
      ensures memory[..] == old(memory[..])[I := value / 100][I + 1 := (value / 10) % 10][I + 2 := value % 10]
    {
      memory[I] := value / 100;
      memory[I + 1] := (value / 10) % 10;
      memory[I + 2] := value % 10;
    }

    /** `Fx55`: copy V0..Vx to memory from I on. */
    method StoreRegisters(x: nat)
      requires Valid() && x < Registers && I + x < MemorySize
      modifies memory
      ensures memory[..] == old(memory[..I]) + V[..x + 1] + old(memory[I + x + 1..])
    {
      for i := 0 to x + 1
        invariant forall j :: 0 <= j < memory.Length ==>
          memory[j] == if I <= j < I + i then V[j - I] else old(memory[j])
      {
        memory[I + i] := V[i];
      }
      assert memory[..] == old(memory[..I]) + V[..x + 1] + old(memory[I + x + 1..]);
    }

    /** `Fx65`: copy memory from I on into V0..Vx. */
    method LoadRegisters(x: nat)
      requires Valid() && x < Registers && I + x < MemorySize
      modifies V
      ensures V[..] == memory[I .. I + x + 1] + old(V[x + 1..])
    {
      for i := 0 to x + 1
        invariant forall j :: 0 <= j < V.Length ==>
          V[j] == if j < i then memory[I + j] else old(V[j])
      {
        V[i] := memory[I + i];
      }
      assert V[..] == memory[I .. I + x + 1] + old(V[x + 1..]);
    }

    /** `update_timers`. */
    method UpdateTimers()
      requires Valid()
      modifies this
      ensures Valid() && Snapshot() == Tick(old(Snapshot()))
    {
      if delay > 0 {
        delay := delay - 1;
      }
      if sound > 0 {
        sound := sound - 1;
      }
    }

    /** The keypad state the host reports, stored in `key`. */
    method SetKeys(keys: seq<bool>)
      requires Valid() && |keys| == Keys
      modifies key
      ensures key[..] == keys
    {
      for i := 0 to Keys
        invariant forall j :: 0 <= j < i ==> key[j] == keys[j]
      {
        key[i] := keys[i];
      }
    }

    /** One frame of `main`: the keypad snapshot is stored, ten instructions
        are fetched and executed, the timers tick. */
    method Frame(keys: seq<bool>, rnds: seq<byte>)
      requires Valid() && FrameDefined(Snapshot(), keys, rnds)
      modifies this, V, stack, memory, display, key
      ensures Valid() && Snapshot() == Chip8.Frame(old(Snapshot()), keys, rnds)
    {
      SetKeys(keys);
      ghost var start := Snapshot();
      assert start == old(Snapshot()).(key := keys);
      for i := 0 to InstructionsPerFrame
        invariant Valid() && key[..] == keys
        invariant RunDefined(Snapshot(), rnds[i..])
        invariant Run(Snapshot(), rnds[i..]) == Run(start, rnds)
      {
        assert rnds[i..][1..] == rnds[i + 1..];
        var instruction := FetchInstr();
        Execute(instruction, rnds[i]);
      }
      assert rnds[InstructionsPerFrame..] == [];
      UpdateTimers();
    }
  }
}
