/** Mouse and keyboard state (jmge/src/input.rs).

    The window loop feeds events into these objects and calls `reset` once
    per frame; game code queries them. The mouse keeps its buttons as the
    bits of a `u8`, the keyboard keeps one counter per key that counts the
    frames the key has been down (0 = up, 1 = pressed on this frame). */
module Inputs {

  import opened Wrappers
  import opened Bits

  // ---------------------------------------------------------------------
  // Mouse buttons as bits of a u8

  /** `1 << but` for a button index 0..7. */
  function ButtonMask(but: nat): (m: u8)
    requires but < 8
    ensures m == Pow2(but)
  {
    Pow2Below(but, 8);
    Shl(1, but)
  }

  /** `buts | (1 << but)` sets bit `but` and keeps every other bit. */
  lemma SetButtonBit(buts: u8, but: nat, i: nat)
    requires but < 8
    ensures Or(buts, ButtonMask(but)) < 0x100
    ensures Bit(Or(buts, ButtonMask(but)), i) <==> i == but || Bit(buts, i)
  {
    Pow2Below(but, 8);
    OrBelow(buts, ButtonMask(but), 8);
    BitOr(buts, ButtonMask(but), i);
    BitPow2(but, i);
  }

  /** `buts & (255 - (1 << but))` clears bit `but` and keeps every other bit
      of a u8. */
  lemma ClearButtonBit(buts: u8, but: nat, i: nat)
    requires but < 8
    ensures And(buts, 255 - ButtonMask(but)) < 0x100
    ensures Bit(And(buts, 255 - ButtonMask(but)), i) <==> i != but && Bit(buts, i)
  {
    Pow2Below(but, 8);
    AndBelow(buts, 255 - ButtonMask(but), 8);
    BitAnd(buts, 255 - ButtonMask(but), i);
    BitClearMask(8, but, i);
    if i >= 8 {
      NoHighBits(buts, 8, i);
    }
  }

  /** A u8 whose bits are those of `old` with bit `but` forced to `down`;
      by `BitsDetermine` there is only one. */
  ghost predicate ButtonUpdated(buts: nat, prev: nat, but: nat, down: bool)
  {
    forall i: nat :: Bit(buts, i) <==> (if i == but then down else Bit(prev, i))
  }

  /** Setting the bit of button `but` presses that button and no other. */
  lemma ButtonSet(prev: u8, but: nat)
    requires but < 8
    ensures Or(prev, ButtonMask(but)) < 0x100
    ensures ButtonUpdated(Or(prev, ButtonMask(but)), prev, but, true)
  {
    forall i: nat ensures Bit(Or(prev, ButtonMask(but)), i) <==> (if i == but then true else Bit(prev, i)) {
      SetButtonBit(prev, but, i);
    }
    SetButtonBit(prev, but, 0);
  }

  /** Clearing the bit of button `but` releases that button and no other. */
  lemma ButtonCleared(prev: u8, but: nat)
    requires but < 8
    ensures And(prev, 255 - ButtonMask(but)) < 0x100
    ensures ButtonUpdated(And(prev, 255 - ButtonMask(but)), prev, but, false)
  {
    forall i: nat ensures Bit(And(prev, 255 - ButtonMask(but)), i) <==> (if i == but then false else Bit(prev, i)) {
      ClearButtonBit(prev, but, i);
    }
    ClearButtonBit(prev, but, 0);
  }

  /** `buts & (1 << but) > 0` holds exactly when bit `but` is set. */
  lemma ButtonTest(buts: u8, but: nat)
    requires but < 8
    ensures And(buts, ButtonMask(but)) > 0 <==> Bit(buts, but)
  {
    BitAnd(buts, ButtonMask(but), but);
    BitPow2(but, but);
    NoBitOfZero(but);
    if And(buts, ButtonMask(but)) > 0 && !Bit(buts, but) {
      var k := HighBit(And(buts, ButtonMask(but)));
      BitAnd(buts, ButtonMask(but), k);
      BitPow2(but, k);
    }
  }

  /** `buts == 1 << but` holds exactly when bit `but` is the only bit set. */
  lemma ButtonOnly(buts: u8, but: nat)
    requires but < 8
    ensures buts == ButtonMask(but) <==> forall i: nat :: Bit(buts, i) <==> i == but
  {
    var m := ButtonMask(but);
    forall i: nat ensures Bit(m, i) <==> i == but {
      BitPow2(but, i);
    }
    if forall i: nat :: Bit(buts, i) <==> i == but {
      forall i: nat ensures Bit(buts, i) <==> Bit(m, i) {
        assert Bit(buts, i) <==> i == but;
      }
      BitsDetermine(buts, m);
    } else {
      var i: nat :| !(Bit(buts, i) <==> i == but);
      assert Bit(buts, i) != Bit(m, i);
    }
  }

  const ButtonPanic := "Mouse.but_down(): invalid button index"

  /** The mouse: the position and buttons of this frame and of the previous
      one. */
  class Mouse {
    var ox: i32
    var oy: i32
    var x: i32
    var y: i32
    var obuts: u8
    var buts: u8

    /** `Mouse::new`: everything zero. */
    constructor ()
      ensures ox == 0 && oy == 0 && x == 0 && y == 0 && obuts == 0 && buts == 0
    {
      ox, oy, x, y := 0, 0, 0, 0;
      obuts, buts := 0, 0;
    }

    /** `reset`: the current state becomes the previous frame's. */
    method Reset()
      modifies this
      ensures ox == x == old(x) && oy == y == old(y) && obuts == buts == old(buts)
      ensures !Moved() && PosDelta() == (0, 0)
    {
      ox := x;
      oy := y;
      obuts := buts;
    }

    /** `set_pos`: a new current position. */
    method SetPos(nx: i32, ny: i32)
      modifies this
      ensures x == nx && y == ny
      ensures ox == old(ox) && oy == old(oy) && obuts == old(obuts) && buts == old(buts)
    {
      x := nx;
      y := ny;
    }

    function Pos(): (i32, i32)
      reads this
    {
      (x, y)
    }

    function PosOld(): (i32, i32)
      reads this
    {
      (ox, oy)
    }

    /** `pos_delta`: the movement since the previous frame. */
    function PosDelta(): (int, int)
      reads this
    {
      (x - ox, y - oy)
    }

    /** `moved`: the position differs from the previous frame's. */
    predicate Moved()
      reads this
    {
      x != ox || y != oy
    }

    /** `set_but`: sets or clears the bit of button `but`. The shift
        `1 << but` on a u8 overflows for an index above 7, which panics in a
        debug build; the buttons are then unchanged. */
    method SetBut(but: u8, down: bool) returns (r: Outcome<()>)
      modifies this
      ensures r.Panic? <==> but > 7
      ensures r.Done? ==> ButtonUpdated(buts, old(buts), but, down)
      ensures r.Panic? ==> buts == old(buts)
      ensures ox == old(ox) && oy == old(oy) && x == old(x) && y == old(y) && obuts == old(obuts)
    {
      if but > 7 {
        return Panic("attempt to shift left with overflow");
      }
      var m := ButtonMask(but);
      if down {
        ButtonSet(buts, but);
        buts := Or(buts, m);
      } else {
        ButtonCleared(buts, but);
        buts := And(buts, 255 - m);
      }
      return Done(());
    }

    function Buts(): u8
      reads this
    {
      buts
    }

    function ButsOld(): u8
      reads this
    {
      obuts
    }

    /** `but_down`: button `but` is down. */
    function ButDown(but: u8): (r: Outcome<bool>)
      reads this
      ensures r.Panic? <==> but > 7
      ensures r.Done? ==> (r.value <==> Bit(buts, but))
    {
      if but > 7 then Panic(ButtonPanic)
      else
        ButtonTest(buts, but);
        Done(And(buts, ButtonMask(but)) > 0)
    }

    /** `but_down_only`: button `but` is the only button down. */
    function ButDownOnly(but: u8): (r: Outcome<bool>)
      reads this
      ensures r.Panic? <==> but > 7
      ensures r.Done? ==> (r.value <==> forall i: nat :: Bit(buts, i) <==> i == but)
    {
      if but > 7 then Panic(ButtonPanic)
      else
        ButtonOnly(buts, but);
        Done(buts == ButtonMask(but))
    }

    /** `but_pressed`: down now, up on the previous frame. */
    function ButPressed(but: u8): (r: Outcome<bool>)
      reads this
      ensures r.Panic? <==> but > 7
      ensures r.Done? ==> (r.value <==> Bit(buts, but) && !Bit(obuts, but))
    {
      if but > 7 then Panic(ButtonPanic)
      else
        ButtonTest(buts, but);
        ButtonTest(obuts, but);
        Done(And(buts, ButtonMask(but)) > 0 && And(obuts, ButtonMask(but)) == 0)
    }

    /** `but_released`: up now, down on the previous frame. */
    function ButReleased(but: u8): (r: Outcome<bool>)
      reads this
      ensures r.Panic? <==> but > 7
      ensures r.Done? ==> (r.value <==> !Bit(buts, but) && Bit(obuts, but))
    {
      if but > 7 then Panic(ButtonPanic)
      else
        ButtonTest(buts, but);
        ButtonTest(obuts, but);
        Done(And(buts, ButtonMask(but)) == 0 && And(obuts, ButtonMask(but)) > 0)
    }
  }

  /** A button is never both pressed and released on the same frame, and a
      pressed button is down. */
  lemma PressedNotReleased(m: Mouse, but: u8)
    requires but <= 7
    ensures m.ButPressed(but).Done? && m.ButReleased(but).Done? && m.ButDown(but).Done?
    ensures !(m.ButPressed(but).value && m.ButReleased(but).value)
    ensures m.ButPressed(but).value ==> m.ButDown(but).value
  {
  }

  /** Right after `reset`, no button is pressed or released. */
  lemma NoEdgesAfterReset(m: Mouse, but: u8)
    requires but <= 7 && m.obuts == m.buts
    ensures m.ButPressed(but) == Done(false) && m.ButReleased(but) == Done(false)
  {
  }

  /** The mouse moved exactly when the delta is not (0, 0). */
  lemma MovedDelta(m: Mouse)
    ensures m.Moved() <==> m.PosDelta() != (0, 0)
  {
  }

  // ---------------------------------------------------------------------
  // Keyboard counters

  /** `glfw::ffi::KEY_LAST + 1`: GLFW 3 numbers its keys up to 348. */
  const NumKeys := 349

  /** `Key::Unknown` is -1; every other key code indexes the counters. */
  const KeyUnknown := -1

  type Key = k: int | k == KeyUnknown || 0 <= k < NumKeys witness KeyUnknown

  /** The counters after one frame: each nonzero counter goes up by one. */
  function Advance(keys: seq<nat>): (r: seq<nat>)
    ensures |r| == |keys|
  {
    if keys == [] then [] else Advance(keys[..|keys| - 1]) + [if keys[|keys| - 1] > 0 then keys[|keys| - 1] + 1 else 0]
  }

  /** Counter k after a frame: 0 stays 0, anything else goes up by one. */
  lemma {:induction false} AdvanceAt(keys: seq<nat>, k: int)
    requires 0 <= k < |keys|
    ensures Advance(keys)[k] == if keys[k] > 0 then keys[k] + 1 else 0
    decreases |keys|
  {
    if k < |keys| - 1 {
      AdvanceAt(keys[..|keys| - 1], k);
    }
  }

  /** Counter after `set_key`: 1 on a press, 0 on a release. */
  function KeyCounter(down: bool): nat
  {
    if down then 1 else 0
  }

  predicate IsDown(keys: seq<nat>, k: int)
    requires 0 <= k < |keys|
  {
    keys[k] > 0
  }

  predicate IsPressed(keys: seq<nat>, k: int)
    requires 0 <= k < |keys|
  {
    keys[k] == 1
  }

  predicate IsReleased(keys: seq<nat>, okeys: seq<nat>, k: int)
    requires 0 <= k < |keys| && k < |okeys|
  {
    keys[k] == 0 && okeys[k] > 0
  }

  /** A frame without events keeps every key down or up as it was, and a
      key is "pressed" for one frame only. */
  lemma AdvanceKeepsState(keys: seq<nat>, k: int)
    requires 0 <= k < |keys|
    ensures IsDown(Advance(keys), k) <==> IsDown(keys, k)
    ensures !IsPressed(Advance(keys), k)
  {
    AdvanceAt(keys, k);
  }

  /** A press: on its frame the key is down and pressed; after one more
      `reset` with no event it is still down but no longer pressed. */
  lemma PressThenFrame(keys: seq<nat>, k: int)
    requires 0 <= k < |keys|
    ensures var pressed := keys[k := KeyCounter(true)];
            && IsDown(pressed, k) && IsPressed(pressed, k)
            && IsDown(Advance(pressed), k) && !IsPressed(Advance(pressed), k)
  {
    AdvanceKeepsState(keys[k := KeyCounter(true)], k);
  }

  /** A release of a key that was down at the last `reset` is seen as
      released on its frame, and no longer after the next `reset`. */
  lemma ReleaseThenFrame(keys: seq<nat>, okeys: seq<nat>, k: int)
    requires 0 <= k < |keys| && |okeys| == |keys| && okeys[k] > 0
    ensures var released := keys[k := KeyCounter(false)];
            && !IsDown(released, k) && IsReleased(released, okeys, k)
            && !IsReleased(Advance(released), released, k)
  {
    AdvanceAt(keys[k := KeyCounter(false)], k);
  }

  const KeyPanic := "index out of bounds"

  /** The keyboard: a counter per key for this frame and for the previous
      one. */
  class Keyboard {
    var keys: seq<nat>
    var okeys: seq<nat>

    ghost predicate Valid()
      reads this
    {
      |keys| == NumKeys && |okeys| == NumKeys
    }

    /** `Keyboard::new`: every key up, on both frames. */
    constructor ()
      ensures Valid() && (forall k | 0 <= k < NumKeys :: keys[k] == 0 && okeys[k] == 0)
    {
      keys := seq(NumKeys, _ => 0);
      okeys := seq(NumKeys, _ => 0);
    }

    /** `reset`: one pass over the keys that copies each counter to the
        previous frame and advances it. */
    method Reset()
      requires Valid()
      modifies this
      ensures Valid() && okeys == old(keys) && keys == Advance(old(keys))
    {
      ghost var k0 := keys;
      var c := 0;
      while c < NumKeys
        invariant 0 <= c <= NumKeys && |keys| == NumKeys && |okeys| == NumKeys
        invariant forall i | 0 <= i < c :: okeys[i] == k0[i] && keys[i] == Advance(k0)[i]
        invariant forall i | c <= i < NumKeys :: keys[i] == k0[i]
        invariant forall i | c <= i < NumKeys :: okeys[i] == old(okeys)[i]
      {
        AdvanceAt(k0, c);
        okeys := okeys[c := keys[c]];
        if keys[c] > 0 {
          keys := keys[c := keys[c] + 1];
        }
        c := c + 1;
      }
    }

    /** `set_key`: records a press (counter 1) or a release (counter 0);
        `Key::Unknown` is ignored. */
    method SetKey(key: Key, down: bool)
      requires Valid()
      modifies this
      ensures Valid() && okeys == old(okeys)
      ensures key == KeyUnknown ==> keys == old(keys)
      ensures key != KeyUnknown ==> keys == old(keys)[key := KeyCounter(down)]
    {
      if key == KeyUnknown {
        return;
      }
      keys := keys[key := KeyCounter(down)];
    }

    /** `key_down`. Indexing with `Key::Unknown as usize` is out of
        bounds. */
    function KeyDown(key: Key): (r: Outcome<bool>)
      requires Valid()
      reads this
      ensures r.Panic? <==> key == KeyUnknown
      ensures r.Done? ==> (r.value <==> keys[key] > 0)
    {
      if key == KeyUnknown then Panic(KeyPanic) else Done(IsDown(keys, key))
    }

    /** `key_pressed`: down since this frame. */
    function KeyPressed(key: Key): (r: Outcome<bool>)
      requires Valid()
      reads this
      ensures r.Panic? <==> key == KeyUnknown
      ensures r.Done? ==> (r.value <==> keys[key] == 1)
    {
      if key == KeyUnknown then Panic(KeyPanic) else Done(IsPressed(keys, key))
    }

    /** `key_released`: up now, down on the previous frame. */
    function KeyReleased(key: Key): (r: Outcome<bool>)
      requires Valid()
      reads this
      ensures r.Panic? <==> key == KeyUnknown
      ensures r.Done? ==> (r.value <==> keys[key] == 0 && okeys[key] > 0)
    {
      if key == KeyUnknown then Panic(KeyPanic) else Done(IsReleased(keys, okeys, key))
    }
  }

  /** The input state of a window: its mouse and its keyboard. */
  class Input {
    const mouse: Mouse
    const keyboard: Keyboard

    ghost predicate Valid()
      reads this, keyboard
    {
      keyboard.Valid()
    }

    /** `Input::new`. */
    constructor ()
      ensures Valid() && fresh(mouse) && fresh(keyboard)
      ensures mouse.buts == 0 && mouse.obuts == 0 && mouse.x == 0 && mouse.y == 0
      ensures mouse.ox == 0 && mouse.oy == 0
      ensures forall k | 0 <= k < NumKeys :: keyboard.keys[k] == 0 && keyboard.okeys[k] == 0
    {
      mouse := new Mouse();
      keyboard := new Keyboard();
    }

    /** `reset`: a new frame for the mouse and for the keyboard. */
    method Reset()
      requires Valid()
      modifies mouse, keyboard
      ensures Valid()
      ensures mouse.ox == mouse.x == old(mouse.x) && mouse.oy == mouse.y == old(mouse.y)
      ensures mouse.obuts == mouse.buts == old(mouse.buts)
      ensures keyboard.okeys == old(keyboard.keys) && keyboard.keys == Advance(old(keyboard.keys))
    {
      mouse.Reset();
      keyboard.Reset();
    }
  }
}
