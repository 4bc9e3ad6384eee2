/** The server's sliding replay window: a bitmap, and the set of counters it stands for. */
module Replay {
  import opened Bytes
  import opened Bits

  const WINDOW_BITS: nat := 1024

  /** What the bitmap means: the watermark and every counter accepted since the window was built. */
  datatype Window = Window(head: int, accepted: set<int>)

  predicate Accepts(w: Window, counter: int) {
    counter >= 0 && counter !in w.accepted && counter > w.head - WINDOW_BITS
  }

  function Advance(w: Window, counter: int): Window {
    if Accepts(w, counter)
    then Window(if counter > w.head then counter else w.head, w.accepted + {counter})
    else w
  }

  /** The window after any sequence of checks, accepted or not. */
  function AdvanceAll(w: Window, counters: seq<int>): Window
    decreases |counters|
  {
    if counters == [] then w else AdvanceAll(Advance(w, counters[0]), counters[1..])
  }

  predicate HeadIsMaximum(w: Window, base: int) {
    && base <= w.head
    && (w.head == base || w.head in w.accepted)
    && forall c :: c in w.accepted ==> 0 <= c <= w.head
  }

  /** Over every run the watermark is the maximum of the starting head and the accepted counters. */
  lemma {:induction false} HeadOverRun(w: Window, base: int, counters: seq<int>)
    requires HeadIsMaximum(w, base)
    ensures HeadIsMaximum(AdvanceAll(w, counters), base)
    ensures w.accepted <= AdvanceAll(w, counters).accepted
    decreases |counters|
  {
    if counters != [] {
      HeadOverRun(Advance(w, counters[0]), base, counters[1..]);
    }
  }

  ghost predicate Represents(high: int, bitmap: nat, accepted: set<int>) {
    && bitmap < Pow2(WINDOW_BITS)
    && (forall c :: c in accepted ==> 0 <= c <= high)
    && (forall i: nat :: i < WINDOW_BITS ==> (Bit(bitmap, i) <==> high - i in accepted))
  }

  /** Bit by bit: shift, or with 1, and with the mask. */
  lemma SlideBit(bitmap: nat, shift: nat, i: nat)
    requires 0 < shift && i < WINDOW_BITS
    ensures Bit(And(Or(Shl(bitmap, shift), 1), Shl(1, WINDOW_BITS) - 1), i) <==> i == 0 || (i >= shift && Bit(bitmap, i - shift))
  {
    ShlOne(WINDOW_BITS);
    AndBit(Or(Shl(bitmap, shift), 1), Shl(1, WINDOW_BITS) - 1, i);
    MaskBit(WINDOW_BITS, i);
    OrBit(Shl(bitmap, shift), 1, i);
    ShlBit(bitmap, shift, i);
    SingleBit(0, i);
  }

  predicate Slid(bitmap: nat, shift: nat, slid: nat) {
    forall i: nat :: i < WINDOW_BITS ==> (Bit(slid, i) <==> i == 0 || (i >= shift && Bit(bitmap, i - shift)))
  }

  lemma SlidRepresents(high: int, bitmap: nat, accepted: set<int>, shift: nat, slid: nat)
    requires Represents(high, bitmap, accepted) && 0 < shift && 0 <= high + shift
    requires slid < Pow2(WINDOW_BITS) && Slid(bitmap, shift, slid)
    ensures Represents(high + shift, slid, accepted + {high + shift})
  {
    forall i: nat | i < WINDOW_BITS
      ensures Bit(slid, i) <==> high + shift - i in accepted + {high + shift}
    {
      if i >= shift {
        assert Bit(bitmap, i - shift) <==> high - (i - shift) in accepted;
      }
    }
  }

  /** Sliding forward by less than the window keeps every bit that still fits and sets bit 0. */
  lemma SlideRepresents(high: int, bitmap: nat, accepted: set<int>, counter: int, slid: nat)
    requires Represents(high, bitmap, accepted)
    requires high < counter < high + WINDOW_BITS && 0 <= counter
    requires slid == And(Or(Shl(bitmap, counter - high), 1), Shl(1, WINDOW_BITS) - 1)
    ensures Represents(counter, slid, accepted + {counter})
  {
    var shift := counter - high;
    SlideBelow(bitmap, shift);
    forall i: nat | i < WINDOW_BITS
      ensures Bit(slid, i) <==> i == 0 || (i >= shift && Bit(bitmap, i - shift))
    {
      SlideBit(bitmap, shift, i);
    }
    SlidRepresents(high, bitmap, accepted, shift, slid);
  }

  lemma SlideBelow(bitmap: nat, shift: nat)
    ensures And(Or(Shl(bitmap, shift), 1), Shl(1, WINDOW_BITS) - 1) < Pow2(WINDOW_BITS)
  {
    ShlOne(WINDOW_BITS);
    AndAtMost(Or(Shl(bitmap, shift), 1), Shl(1, WINDOW_BITS) - 1);
  }

  /** Jumping past the whole window leaves only bit 0. */
  lemma JumpRepresents(high: int, bitmap: nat, accepted: set<int>, counter: int)
    requires Represents(high, bitmap, accepted)
    requires high + WINDOW_BITS <= counter && 0 <= counter
    ensures Represents(counter, 1, accepted + {counter})
  {
    Pow2Monotone(0, WINDOW_BITS);
    forall i: nat | i < WINDOW_BITS
      ensures Bit(1, i) <==> counter - i in accepted + {counter}
    {
      SingleBit(0, i);
    }
  }

  /** Setting the bit of an older counter changes that bit alone. */
  lemma MarkRepresents(high: int, bitmap: nat, accepted: set<int>, counter: int)
    requires Represents(high, bitmap, accepted)
    requires high - WINDOW_BITS < counter <= high && 0 <= counter
    ensures Represents(high, Or(bitmap, Shl(1, high - counter)), accepted + {counter})
  {
    var offset := high - counter;
    ShlOne(offset);
    Pow2Monotone(offset, WINDOW_BITS);
    OrBelow(bitmap, Shl(1, offset), WINDOW_BITS);
    forall i: nat | i < WINDOW_BITS
      ensures Bit(Or(bitmap, Shl(1, offset)), i) <==> high - i in accepted + {counter}
    {
      OrBit(bitmap, Shl(1, offset), i);
      SingleBit(offset, i);
    }
  }

  /** The source's test of one bit by masking. */
  lemma MaskTest(bitmap: nat, offset: nat)
    ensures And(bitmap, Shl(1, offset)) != 0 <==> Bit(bitmap, offset)
  {
    var masked := And(bitmap, Shl(1, offset));
    AndBit(bitmap, Shl(1, offset), offset);
    SingleBit(offset, offset);
    if Bit(bitmap, offset) {
      ZeroBit(offset);
    } else {
      forall i: nat
        ensures !Bit(masked, i)
      {
        AndBit(bitmap, Shl(1, offset), i);
        SingleBit(offset, i);
      }
      NoBitsIsZero(masked);
    }
  }

  lemma {:induction false} NoBitsIsZero(n: nat)
    requires forall i: nat :: !Bit(n, i)
    ensures n == 0
  {
    if n != 0 {
      assert !Bit(n, 0);
      forall i: nat
        ensures !Bit(n / 2, i)
      {
        assert !Bit(n, i + 1);
      }
      NoBitsIsZero(n / 2);
    }
  }

  class ReplayWindow {
    var high: int
    var bitmap: nat
    ghost var accepted: set<int>
    ghost const owner: bytes  // the session this window belongs to

    ghost predicate Valid()
      reads this
    {
      Represents(high, bitmap, accepted)
    }

    ghost function View(): Window
      reads this
    {
      Window(high, accepted)
    }

    /** A window at a given watermark with an empty bitmap: fresh at 0, hydrated elsewhere. */
    constructor (high: int, ghost owner: bytes)
      ensures Valid() && View() == Window(high, {}) && this.owner == owner
    {
      this.high, bitmap, accepted, this.owner := high, 0, {}, owner;
      new;
      forall i: nat | i < WINDOW_BITS
        ensures !Bit(bitmap, i)
      {
        ZeroBit(i);
      }
    }

    method CheckAndAdvance(counter: int) returns (ok: bool)
      requires Valid()
      modifies this
      ensures Valid()
      ensures ok == Accepts(old(View()), counter)
      ensures View() == Advance(old(View()), counter)
    {
      if counter < 0 {
        return false;
      }
      if counter > high {
        var shift := counter - high;
        if shift >= WINDOW_BITS {
          JumpRepresents(high, bitmap, accepted, counter);
          bitmap := 1;
        } else {
          var slid := And(Or(Shl(bitmap, shift), 1), Shl(1, WINDOW_BITS) - 1);
          SlideRepresents(high, bitmap, accepted, counter, slid);
          bitmap := slid;
        }
        high := counter;
        accepted := accepted + {counter};
        return true;
      }
      var offset := high - counter;
      if offset >= WINDOW_BITS {
        return false;
      }
      var mask := Shl(1, offset);
      MaskTest(bitmap, offset);
      assert counter == high - offset;
      if And(bitmap, mask) != 0 {
        return false;
      }
      MarkRepresents(high, bitmap, accepted, counter);
      bitmap := Or(bitmap, mask);
      accepted := accepted + {counter};
      return true;
    }
  }
}
