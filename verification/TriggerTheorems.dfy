/** What the stack trigger registers tell about the events they were written for. */
module TriggerTheorems {
  import opened Wrappers
  import opened Bits
  import opened StackSetup
  import opened StackSetupTheorems

  // ---------------------------------------------------------------------
  // Bits of numbers

  lemma {:induction false} BitAndBound(x: nat, y: nat)
    ensures BitAnd(x, y) <= y
  {
    if x != 0 && y != 0 {
      BitAndBound(x / 2, y / 2);
    }
  }

  lemma {:induction false} BitAndTwice(x: nat, y: nat)
    ensures BitAnd(BitAnd(x, y), y) == BitAnd(x, y)
  {
    if x != 0 && y != 0 {
      BitAndTwice(x / 2, y / 2);
    }
  }

  lemma HalfOfProduct(a: nat, s: nat)
    requires s > 0
    ensures a * Pow2(s) == 2 * (a * Pow2(s - 1))
  {
  }

  /** Or-ing low bits to a shifted number is adding them. */
  lemma {:induction false} BitOrShifted(a: nat, s: nat, b: nat)
    requires b < Pow2(s)
    ensures BitOr(a * Pow2(s), b) == a * Pow2(s) + b
  {
    if s > 0 {
      HalfOfProduct(a, s);
      BitOrShifted(a, s - 1, b / 2);
    }
  }

  /** The bits of a low mask do not see a shifted number. */
  lemma {:induction false} BitAndShifted(a: nat, s: nat, b: nat, mask: nat)
    requires b < Pow2(s) && mask < Pow2(s)
    ensures BitAnd(a * Pow2(s) + b, mask) == BitAnd(b, mask)
  {
    if s > 0 {
      HalfOfProduct(a, s);
      BitAndShifted(a, s - 1, b / 2, mask / 2);
      var h := a * Pow2(s - 1);
      assert (2 * h + b) / 2 == h + b / 2 && (2 * h + b) % 2 == b % 2;
      ZeroAnd(b / 2, mask / 2);
    }
  }

  lemma ZeroAnd(x: nat, y: nat)
    ensures x == 0 || y == 0 ==> BitAnd(x, y) == 0
  {
  }

  /** A mask of `k` low bits keeps a number that fits into them. */
  lemma {:induction false} LowBitsKept(x: nat, k: nat)
    requires x < Pow2(k)
    ensures BitAnd(x, Pow2(k) - 1) == x
  {
    if x > 0 {
      LowBitsKept(x / 2, k - 1);
      assert (Pow2(k) - 1) / 2 == Pow2(k - 1) - 1;
    }
  }

  lemma QuotientOf(a: nat, p: nat, b: nat)
    requires b < p
    ensures (a * p + b) / p == a
  {
    var q, r := (a * p + b) / p, (a * p + b) % p;
    assert q * p + r == a * p + b;
    if q > a {
      assert (q - a) * p >= p by { AtLeastOne(q - a, p); }
    } else if q < a {
      assert (a - q) * p >= p by { AtLeastOne(a - q, p); }
    }
  }

  lemma AtLeastOne(n: nat, p: nat)
    requires n >= 1
    ensures n * p >= p
  {
  }

  // ---------------------------------------------------------------------
  // Reading the register back

  /** What a trigger register can ask for. */
  datatype Kind = WithIack | WithoutIack | External

  function KindOf(e: Event): Kind {
    if e.trigger != Interrupt then External else if e.useIack then WithIack else WithoutIack
  }

  /** The trigger type in the upper bits. */
  ghost predicate TypeIs(c: Layout, triggerType: int, k: Kind) {
    match k
    case WithIack => triggerType == c.irqWithIack
    case WithoutIack => triggerType == c.irqNoIack
    case External => triggerType == c.external
  }

  /** The level minus one, in 32 bits. */
  function LevelBits(level: nat): nat { if level == 0 then 0xffff_ffff else level - 1 }

  function Masked(level: nat, mask: nat): nat {
    var bits := LevelBits(level);
    BitAnd(bits, mask)
  }

  function UpperBits(value: nat, shift: nat): int { value / Pow2(shift) }

  /** The register of an event: its type above, its level under the mask. */
  ghost predicate Tells(c: Layout, value: nat, e: Event) {
    && TypeIs(c, UpperBits(value, c.triggerTypeShift), KindOf(e))
    && BitAnd(value, c.triggerBitsMask) == if e.trigger == Interrupt then Masked(e.irqLevel, c.triggerBitsMask) else 0
  }

  /** The mask lies below the trigger type. */
  ghost predicate SeparateFields(c: Layout) { c.triggerBitsMask < Pow2(c.triggerTypeShift) }

  lemma ValueTells(c: Layout, e: Event)
    requires SeparateFields(c)
    ensures Tells(c, TriggerValue(c, e), e)
  {
    var p, mask := Pow2(c.triggerTypeShift), c.triggerBitsMask;
    var t := if e.trigger != Interrupt then c.external else if e.useIack then c.irqWithIack else c.irqNoIack;
    var b := if e.trigger == Interrupt then Masked(e.irqLevel, mask) else 0;
    BitAndBound(LevelBits(e.irqLevel), mask);
    BitAndTwice(LevelBits(e.irqLevel), mask);
    BitOrShifted(t, c.triggerTypeShift, b);
    assert TriggerValue(c, e) == t * p + b;
    QuotientOf(t, p, b);
    BitAndShifted(t, c.triggerTypeShift, b, mask);
    ZeroAnd(0, mask);
  }

  /** Every register written, and every value listed for a crate configuration, tells the trigger of
      its event: condition, IACK choice and level. */
  lemma WritesTell(c: Layout, events: seq<Event>, triggers: seq<nat>)
    requires SeparateFields(c) && OfThisController(events)
    requires WriteValues(TriggerPlan(c, events, c.immediateId + 1, 0).0, triggers)
    ensures var writes := TriggerPlan(c, events, c.immediateId + 1, 0).0;
            |writes| <= |events| &&
            forall k :: 0 <= k < |writes| ==>
              writes[k].StackTrigger? && Tells(c, writes[k].value, events[k]) && Tells(c, triggers[k], events[k])
  {
    var first := c.immediateId + 1;
    var writes := TriggerPlan(c, events, first, 0).0;
    var n := TriggersInOrder(c, events, first, 0);
    forall k | 0 <= k < |writes|
      ensures writes[k].StackTrigger? && Tells(c, writes[k].value, events[k]) && Tells(c, triggers[k], events[k])
    {
      assert TriggerAt(c, events, first, writes, k);
      ValueTells(c, events[k]);
    }
  }

  /** With distinct types the registers of two events agree exactly if the events ask for the same. */
  lemma SameRegisterIff(c: Layout, e: Event, f: Event)
    requires SeparateFields(c)
    requires c.irqWithIack != c.irqNoIack && c.irqWithIack != c.external && c.irqNoIack != c.external
    ensures var mask := c.triggerBitsMask;
            TriggerValue(c, e) == TriggerValue(c, f) <==>
            && KindOf(e) == KindOf(f)
            && (e.trigger == Interrupt ==> Masked(e.irqLevel, mask) == Masked(f.irqLevel, mask))
  {
    ValueTells(c, e);
    ValueTells(c, f);
  }

  /** A mask of `k` bits tells the levels from 1 to 2^k apart. */
  lemma LevelsApart(c: Layout, e: Event, f: Event, k: nat)
    requires SeparateFields(c) && c.triggerBitsMask == Pow2(k) - 1
    requires c.irqWithIack != c.irqNoIack && c.irqWithIack != c.external && c.irqNoIack != c.external
    requires e.trigger == Interrupt && 1 <= e.irqLevel <= Pow2(k) && 1 <= f.irqLevel <= Pow2(k)
    ensures TriggerValue(c, e) == TriggerValue(c, f) <==>
            f.trigger == Interrupt && e.useIack == f.useIack && e.irqLevel == f.irqLevel
  {
    SameRegisterIff(c, e, f);
    LowBitsKept(e.irqLevel - 1, k);
    LowBitsKept(f.irqLevel - 1, k);
  }
}
