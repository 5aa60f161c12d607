/** The 64-packet replay window of a binding: a bitmap over the highest sequence seen.
    Machine words are natural numbers; `<<`, `|` and `&` on them are written out. */
module ReplayWindow {
  datatype Window = Window(highest: nat, bitmap: nat, initialized: bool)

  const EMPTY := Window(0, 0, false)

  function Pow2(n: nat): (p: nat)
    ensures p > 0
  {
    if n == 0 then 1 else 2 * Pow2(n - 1)
  }

  /** Bit `i` of a word: `word & (1 << i) != 0`. */
  predicate Bit(word: nat, i: nat) {
    if i == 0 then word % 2 == 1 else Bit(word / 2, i - 1)
  }

  /** `word << shift` on 64 bits. */
  function ShiftLeft(word: nat, shift: nat): nat {
    (word * Pow2(shift)) % Pow2(64)
  }

  /** `word | (1 << i)`. */
  function WithBit(word: nat, i: nat): nat {
    if Bit(word, i) then word else word + Pow2(i)
  }

  function Accept(w: Window, sequence: nat): (Window, bool) {
    if !w.initialized then
      (Window(sequence, 1, true), true)
    else if sequence > w.highest then
      var shift := sequence - w.highest;
      (Window(sequence, if shift >= 64 then 1 else WithBit(ShiftLeft(w.bitmap, shift), 0), true), true)
    else
      var delta := w.highest - sequence;
      if delta >= 64 || Bit(w.bitmap, delta) then (w, false)
      else (w.(bitmap := WithBit(w.bitmap, delta)), true)
  }

  /** The window holds exactly this history: bit `i` is set iff `highest - i` was accepted. */
  ghost predicate Represents(w: Window, accepted: set<nat>) {
    if !w.initialized then accepted == {}
    else
      && w.highest in accepted
      && (forall q | q in accepted :: q <= w.highest)
      && (forall i: nat | i < 64 :: Bit(w.bitmap, i) <==> w.highest - i in accepted)
  }

  /** What acceptance means without a bitmap: never accepted, and not too old. */
  ghost predicate Fresh(w: Window, accepted: set<nat>, sequence: nat) {
    && sequence !in accepted
    && (accepted == {} || sequence > w.highest || w.highest - sequence < 64)
  }

  lemma {:induction false} WithBitBit(word: nat, j: nat, i: nat)
    ensures Bit(WithBit(word, j), i) <==> i == j || Bit(word, i)
  {
    if !Bit(word, j) && j > 0 {
      assert (word + Pow2(j)) / 2 == word / 2 + Pow2(j - 1);
      if i > 0 { WithBitBit(word / 2, j - 1, i - 1); }
    }
  }

  lemma {:induction false} TimesPow2Bit(word: nat, shift: nat, i: nat)
    ensures Bit(word * Pow2(shift), i) <==> i >= shift && Bit(word, i - shift)
  {
    if shift > 0 {
      var half := word * Pow2(shift - 1);
      assert word * Pow2(shift) == 2 * half;
      if i > 0 { TimesPow2Bit(word, shift - 1, i - 1); }
    }
  }

  lemma HalfOfRemainder(word: nat, half: nat)
    requires half > 0
    ensures (word % (2 * half)) % 2 == word % 2
    ensures (word % (2 * half)) / 2 == (word / 2) % half
  {
    HalfOfSum(word / (2 * half), word % (2 * half), half);
  }

  lemma HalfOfSum(q: nat, r: nat, half: nat)
    requires r < 2 * half
    ensures (2 * half * q + r) % 2 == r % 2
    ensures ((2 * half * q + r) / 2) % half == r / 2
  {
    var product := half * q;
    assert 2 * half * q + r == 2 * product + r;
    assert (2 * product + r) / 2 == product + r / 2;
    Remainder(product + r / 2, half, q, r / 2);
  }

  lemma Multiples(d: nat, k: int, m: int)
    ensures k >= m ==> d * k >= d * m
  {
  }

  lemma Remainder(x: nat, d: nat, q: nat, r: nat)
    requires x == d * q + r && r < d
    ensures x % d == r
  {
    Multiples(d, x / d, q + 1);
    Multiples(d, q - 1, x / d);
  }

  lemma {:induction false} TruncatedBit(word: nat, width: nat, i: nat)
    requires i < width
    ensures Bit(word % Pow2(width), i) <==> Bit(word, i)
  {
    HalfOfRemainder(word, Pow2(width - 1));
    if i > 0 { TruncatedBit(word / 2, width - 1, i - 1); }
  }

  /** How one acceptance moves every bit of an initialized window. */
  lemma AcceptBit(w: Window, sequence: nat, i: nat)
    requires w.initialized && i < 64
    ensures sequence > w.highest ==> var shift := sequence - w.highest;
      (Bit(Accept(w, sequence).0.bitmap, i) <==> i == 0 || (i >= shift && Bit(w.bitmap, i - shift)))
    ensures sequence <= w.highest && w.highest - sequence < 64 ==>
      (Bit(Accept(w, sequence).0.bitmap, i) <==> i == w.highest - sequence || Bit(w.bitmap, i))
  {
    if sequence > w.highest {
      var shift := sequence - w.highest;
      if shift < 64 {
        WithBitBit(ShiftLeft(w.bitmap, shift), 0, i);
        ShiftedBit(w.bitmap, shift, i);
      } else {
        OneBit(i);
      }
    } else if w.highest - sequence < 64 {
      WithBitBit(w.bitmap, w.highest - sequence, i);
    }
    hide Bit, WithBit, ShiftLeft;
  }

  lemma ShiftedBit(word: nat, shift: nat, i: nat)
    requires i < 64
    ensures Bit(ShiftLeft(word, shift), i) <==> i >= shift && Bit(word, i - shift)
  {
    TruncatedBit(word * Pow2(shift), 64, i);
    TimesPow2Bit(word, shift, i);
    hide Bit, Pow2;
  }

  lemma OneBit(i: nat)
    ensures Bit(1, i) <==> i == 0
  {
    if i > 0 { ZeroBit(i - 1); }
  }

  lemma {:induction false} ZeroBit(i: nat)
    ensures !Bit(0, i)
  {
    if i > 0 { ZeroBit(i - 1); }
  }

  /** The bitmap refines the set of accepted sequences: the verdict is `Fresh`, and the new
      window holds exactly the old history plus an accepted sequence. */
  lemma AcceptRefinesSet(w: Window, accepted: set<nat>, sequence: nat)
    requires Represents(w, accepted)
    ensures Accept(w, sequence).1 <==> Fresh(w, accepted, sequence)
    ensures Represents(Accept(w, sequence).0, if Accept(w, sequence).1 then accepted + {sequence} else accepted)
  {
    var (w', admitted) := Accept(w, sequence);
    var accepted' := if admitted then accepted + {sequence} else accepted;
    forall i: nat | i < 64
      ensures Bit(w'.bitmap, i) <==> w'.highest - i in accepted'
    {
      if w.initialized {
        AcceptBit(w, sequence, i);
      } else {
        ZeroBit(i);
        WithBitBit(0, 0, i);
      }
    }
  }

  /** A word stays a word: the bitmap never leaves 64 bits. */
  lemma {:induction false} WithBitBound(word: nat, i: nat, width: nat)
    requires i < width && word < Pow2(width)
    ensures WithBit(word, i) < Pow2(width)
  {
    assert Pow2(width) == 2 * Pow2(width - 1);
    if !Bit(word, i) && i > 0 {
      assert Pow2(i) == 2 * Pow2(i - 1) && !Bit(word / 2, i - 1);
      WithBitBound(word / 2, i - 1, width - 1);
      HalvesBound(word, Pow2(i - 1), Pow2(width - 1));
    }
  }

  lemma HalvesBound(word: nat, p: nat, q: nat)
    requires word / 2 + p < q
    ensures word + 2 * p < 2 * q
  {
  }

  lemma AcceptKeepsWord(w: Window, sequence: nat)
    requires w.bitmap < Pow2(64)
    ensures Accept(w, sequence).0.bitmap < Pow2(64)
  {
    WithBitBound(0, 0, 64);
    WithBitBound(ShiftLeft(w.bitmap, if sequence > w.highest then sequence - w.highest else 0), 0, 64);
    if sequence <= w.highest && w.highest - sequence < 64 {
      WithBitBound(w.bitmap, w.highest - sequence, 64);
    }
  }

  /** The window will not admit this sequence. */
  predicate Refuses(w: Window, sequence: nat) { w.initialized && !Accept(w, sequence).1 }

  /** Whatever `w` refuses, `w'` refuses. */
  ghost predicate NeverForgets(w: Window, w': Window) { forall q: nat :: Refuses(w, q) ==> Refuses(w', q) }

  lemma AcceptNeverForgets(w: Window, sequence: nat)
    ensures NeverForgets(w, Accept(w, sequence).0) && Refuses(Accept(w, sequence).0, sequence)
  {
    if w.initialized {
      forall q: nat | Refuses(w, q) ensures Refuses(Accept(w, sequence).0, q) { RefusalPersists(w, q, sequence); }
      RefusalPersists(w, sequence, sequence);
    } else {
      WithBitBit(0, 0, 0);
    }
  }

  /** Once a window refuses a sequence, or has just accepted it, it refuses it for ever. */
  lemma RefusalPersists(w: Window, refused: nat, sequence: nat)
    requires w.initialized && (!Accept(w, refused).1 || refused == sequence)
    ensures !Accept(Accept(w, sequence).0, refused).1
  {
    var w' := Accept(w, sequence).0;
    if refused <= w'.highest && w'.highest - refused < 64 {
      AcceptBit(w, sequence, w'.highest - refused);
      if w.highest >= refused { assert Bit(w.bitmap, w.highest - refused) || refused == sequence; }
    }
  }

  /** The window of `replayWindow`, updated in place by one packet at a time. */
  class ReplayWindow {
    var highest: nat
    var bitmap: nat
    var initialized: bool
    ghost var accepted: set<nat>

    ghost function View(): Window reads this { Window(highest, bitmap, initialized) }

    ghost predicate Valid() reads this { Represents(View(), accepted) && bitmap < Pow2(64) }

    constructor ()
      ensures Valid() && View() == EMPTY && accepted == {}
    {
      highest, bitmap, initialized := 0, 0, false;
      accepted := {};
    }

    method AcceptSequence(sequence: nat) returns (admitted: bool)
      requires Valid()
      modifies this
      ensures Valid()
      ensures admitted <==> Fresh(old(View()), old(accepted), sequence)
      ensures accepted == if admitted then old(accepted) + {sequence} else old(accepted)
      ensures View() == Accept(old(View()), sequence).0
    {
      AcceptRefinesSet(View(), accepted, sequence);
      AcceptKeepsWord(View(), sequence);
      hide Bit, Pow2, ShiftLeft, WithBit, Represents;
      if !initialized {
        highest := sequence;
        bitmap := 1;
        initialized := true;
        accepted := accepted + {sequence};
        return true;
      }
      if sequence > highest {
        var shift := sequence - highest;
        if shift >= 64 {
          bitmap := 1;
        } else {
          bitmap := WithBit(ShiftLeft(bitmap, shift), 0);
        }
        highest := sequence;
        accepted := accepted + {sequence};
        return true;
      }
      var delta := highest - sequence;
      if delta >= 64 {
        return false;
      }
      if Bit(bitmap, delta) {
        return false;
      }
      bitmap := WithBit(bitmap, delta);
      accepted := accepted + {sequence};
      return true;
    }
  }
}
