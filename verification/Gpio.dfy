/** The GPIO endpoint: a word of pins, who may drive which, and the queue of
    trigger events (section 13.5 of TC18, Table 30). */
module Gpio {
  import opened Bytes
  import opened Outcomes
  import opened Words

  datatype Config = Config(pinCount: nat, direction: Word32, triggerEnable: Word32)

  const MAX_PINS := 32

  function Active(c: Config): Word32 {
    LowBits(c.pinCount)
  }

  predicate Validate(c: Config) {
    1 <= c.pinCount <= MAX_PINS && Except(c.direction, Active(c)) == 0 && Except(c.triggerEnable, Active(c)) == 0
  }

  // ------------------------------------------------------------- write rules

  /** How a payload combines with the current word; 4 is reserved, 7 is a
      configuration request and never gets here. The saturating difference is
      payload minus current. */
  function ApplyWriteOp(op: nat, payload: Word32, current: Word32, limit: Word32): Option<Word32> {
    if op == 0 then Some(payload)
    else if op == 1 then Some(Or(payload, current))
    else if op == 2 then Some(And(payload, current))
    else if op == 3 then Some(Xor(payload, current))
    else if op == 5 then Some(if payload + current > limit then limit else payload + current)
    else if op == 6 then
      Some(if payload <= current then 0 else if payload - current > limit then limit else payload - current)
    else None
  }

  /** The pins driven from `candidate` within `mask`, every other pin kept. */
  function Drive(value: Word32, candidate: Word32, mask: Word32): Word32 {
    Or(Except(value, mask), And(candidate, mask))
  }

  // ---------------------------------------------------------------- endpoint

  datatype TriggerEvent = TriggerEvent(changedMask: Word32, value: Word32)

  datatype State = State(cfg: Config, value: Word32, triggers: seq<TriggerEvent>)

  /** The event a change from `before` to `after` queues, if any enabled pin moved. */
  function Events(c: Config, before: Word32, after: Word32): seq<TriggerEvent> {
    var changed := And(Xor(before, after), c.triggerEnable);
    if changed == 0 then [] else [TriggerEvent(changed, after)]
  }

  function InputMask(c: Config): Word32 {
    Except(Active(c), c.direction)
  }

  function OutputMask(c: Config): Word32 {
    And(c.direction, Active(c))
  }

  function Moved(s: State, value: Word32): State {
    s.(value := value, triggers := s.triggers + Events(s.cfg, s.value, value))
  }

  function AfterInputs(s: State, mask: Word32): State {
    Moved(s, Drive(s.value, mask, InputMask(s.cfg)))
  }

  function AfterWrite(s: State, op: nat, operand: Word32): State {
    var v := ApplyWriteOp(op, operand, s.value, Active(s.cfg));
    if v.None? then s else Moved(s, Drive(s.value, And(v.value, Active(s.cfg)), OutputMask(s.cfg)))
  }

  function AfterConfigure(s: State, c: Config, persisted: bool): State {
    if Validate(c) && persisted then s.(cfg := c, value := And(s.value, Active(c))) else s
  }

  class Endpoint {
    var cfg: Config
    var value: Word32
    var triggers: seq<TriggerEvent>

    function View(): State
      reads this
    {
      State(cfg, value, triggers)
    }

    constructor ()
      ensures View() == Unconfigured()
    {
      cfg, value, triggers := Config(0, 0, 0), 0, [];
    }

    method RecordChange(before: Word32, after: Word32)
      modifies this`triggers
      ensures triggers == old(triggers) + Events(cfg, before, after)
    {
      hide And;
      hide Xor;
      var changed := And(Xor(before, after), cfg.triggerEnable);
      if changed == 0 {
        assert triggers + [] == triggers;
        return;
      }
      triggers := triggers + [TriggerEvent(changed, after)];
    }

    /** `persisted` is whether the server accepted the block. */
    method Configure(c: Config, persisted: bool)
      modifies this`cfg, this`value
      ensures View() == AfterConfigure(old(View()), c, persisted)
    {
      hide Validate;
      hide And;
      if !Validate(c) || !persisted {
        return;
      }
      cfg := c;
      value := And(value, Active(c));
    }

    method SetInputs(mask: Word32) returns (r: Word32)
      modifies this`value, this`triggers
      ensures View() == AfterInputs(old(View()), mask) && r == value
    {
      hide Drive;
      hide Events;
      var before := value;
      value := Drive(value, mask, InputMask(cfg));
      RecordChange(before, value);
      r := value;
    }

    /** An unknown combining rule is refused and changes nothing. */
    method ApplyWrite(op: nat, operand: Word32) returns (r: Option<Word32>)
      modifies this`value, this`triggers
      ensures View() == AfterWrite(old(View()), op, operand)
      ensures r == if op == 4 || op >= 7 then None else Some(value)
    {
      hide Drive;
      hide Events;
      hide And;
      hide Or;
      hide Xor;
      var candidate := ApplyWriteOp(op, operand, value, Active(cfg));
      if candidate.None? {
        return None;
      }
      var before := value;
      value := Drive(value, And(candidate.value, Active(cfg)), OutputMask(cfg));
      RecordChange(before, value);
      return Some(value);
    }

    method DrainTriggers() returns (out: seq<TriggerEvent>)
      modifies this`triggers
      ensures out == old(triggers) && triggers == []
    {
      out := triggers;
      triggers := [];
    }
  }

  function Unconfigured(): State {
    State(Config(0, 0, 0), 0, [])
  }

  // -------------------------------------------------------------------- runs

  datatype Op =
    | Inputs(mask: Word32)
    | Write(op: nat, operand: Word32)
    | Drain
    | Configure(cfg: Config, persisted: bool)

  function Step(s: State, o: Op): State {
    match o
    case Inputs(mask) => AfterInputs(s, mask)
    case Write(op, operand) => AfterWrite(s, op, operand)
    case Drain => s.(triggers := [])
    case Configure(c, persisted) => AfterConfigure(s, c, persisted)
  }

  function Run(s: State, ops: seq<Op>): State {
    if ops == [] then s else Step(Run(s, ops[..|ops| - 1]), ops[|ops| - 1])
  }

  // ------------------------------------------------------------ pin by pin

  /** A pin the configuration lets a write drive. */
  predicate IsOutput(c: Config, k: nat) {
    k < c.pinCount && Pin(c.direction, k)
  }

  /** A pin only the outside drives. */
  predicate IsInput(c: Config, k: nat) {
    k < c.pinCount && !Pin(c.direction, k)
  }

  lemma MaskPins(c: Config, k: nat)
    requires k < 32
    ensures Pin(Active(c), k) <==> k < c.pinCount
    ensures Pin(OutputMask(c), k) <==> IsOutput(c, k)
    ensures Pin(InputMask(c), k) <==> IsInput(c, k)
  {
    hide Pin;
    hide And;
    hide Except;
    hide LowBits;
    LowBitsPins(c.pinCount, k);
    PinsOf(c.direction, Active(c), k);
    PinsOf(Active(c), c.direction, k);
  }

  lemma DrivePins(value: Word32, candidate: Word32, mask: Word32, k: nat)
    requires k < 32
    ensures Pin(Drive(value, candidate, mask), k) <==> if Pin(mask, k) then Pin(candidate, k) else Pin(value, k)
  {
    hide Pin;
    hide And;
    hide Or;
    hide Except;
    PinsOf(value, mask, k);
    PinsOf(candidate, mask, k);
    PinsOf(Except(value, mask), And(candidate, mask), k);
  }

  /** `z` brought into 0..`high`. */
  function Clamp(z: int, high: Word32): Word32 {
    if z < 0 then 0 else if z > high then high else z
  }

  /** What a write leaves on each pin. On an output pin: set takes the operand's
      bit, OR and AND combine it with the pin, XOR flips the pin where it is set,
      the two arithmetic rules leave the bit of the exact sum or difference
      brought into the range of the active pins. A reserved rule and a pin that
      is not an output change nothing. */
  lemma WritePins(s: State, op: nat, x: Word32, k: nat)
    requires k < 32
    ensures var before, bit, after := Pin(s.value, k), Pin(x, k), Pin(AfterWrite(s, op, x).value, k);
            if !IsOutput(s.cfg, k) then after == before
            else if op == 0 then after == bit
            else if op == 1 then after == (before || bit)
            else if op == 2 then after == (before && bit)
            else if op == 3 then after == (before != bit)
            else if op == 5 then after == Pin(Clamp(x + s.value, Active(s.cfg)), k)
            else if op == 6 then after == Pin(Clamp(x - s.value, Active(s.cfg)), k)
            else after == before
    ensures AfterWrite(s, op, x).cfg == s.cfg
  {
    hide Pin;
    hide And;
    hide Or;
    hide Xor;
    hide Events;
    hide Drive;
    hide LowBits;
    var a := Active(s.cfg);
    MaskPins(s.cfg, k);
    PinsOf(x, s.value, k);
    var v := ApplyWriteOp(op, x, s.value, a);
    if v.Some? {
      PinsOf(v.value, a, k);
      hide InputMask;
      hide OutputMask;
      DrivePins(s.value, And(v.value, a), OutputMask(s.cfg), k);
    }
  }

  /** What the outside leaves on each pin. */
  lemma InputPins(s: State, mask: Word32, k: nat)
    requires k < 32
    ensures Pin(AfterInputs(s, mask).value, k) <==> if IsInput(s.cfg, k) then Pin(mask, k) else Pin(s.value, k)
    ensures AfterInputs(s, mask).cfg == s.cfg
  {
    hide Pin;
    hide Events;
    hide Drive;
    MaskPins(s.cfg, k);
    hide InputMask;
    DrivePins(s.value, mask, InputMask(s.cfg), k);
  }

  /** A configuration is adopted exactly when the server accepts it, it has 1 to 32
      pins, and neither mask names a pin beyond them; then the word loses the
      pins that are gone. */
  lemma ConfigurePins(s: State, c: Config, persisted: bool)
    ensures var good := && persisted && 1 <= c.pinCount <= 32
                        && Below(c.direction, c.pinCount) && Below(c.triggerEnable, c.pinCount);
            var s' := AfterConfigure(s, c, persisted);
            && s'.triggers == s.triggers
            && (!good ==> s' == s)
            && (good ==> s'.cfg == c && forall k :: 0 <= k < 32 ==>
                  (Pin(s'.value, k) <==> Pin(s.value, k) && k < c.pinCount))
  {
    hide Pin;
    hide And;
    hide Except;
    hide LowBits;
    ConfinedMeans(c.direction, c);
    ConfinedMeans(c.triggerEnable, c);
    forall k | 0 <= k < 32
      ensures Pin(And(s.value, Active(c)), k) <==> Pin(s.value, k) && k < c.pinCount
    {
      LowBitsPins(c.pinCount, k);
      PinsOf(s.value, Active(c), k);
    }
  }

  /** No enabled pin differs between the two words. */
  predicate Unmoved(c: Config, before: Word32, after: Word32) {
    forall k :: 0 <= k < 32 && Pin(c.triggerEnable, k) ==> Pin(before, k) == Pin(after, k)
  }

  /** A change queues one event when an enabled pin moved, and none otherwise. The
      event marks exactly the enabled pins that moved and carries the new word. */
  lemma EventPins(c: Config, before: Word32, after: Word32)
    ensures var es := Events(c, before, after);
            && |es| <= 1
            && (es == [] <==> Unmoved(c, before, after))
            && (es != [] ==> && es[0].value == after
                             && forall k :: 0 <= k < 32 ==>
                                  (Pin(es[0].changedMask, k) <==>
                                   Pin(before, k) != Pin(after, k) && Pin(c.triggerEnable, k)))
  {
    hide And;
    hide Xor;
    var moved := Xor(before, after);
    var changed := And(moved, c.triggerEnable);
    forall k | 0 <= k < 32
      ensures Pin(changed, k) <==> Pin(before, k) != Pin(after, k) && Pin(c.triggerEnable, k)
      ensures !Pin(0, k)
    {
      PinsOf(before, after, k);
      PinsOf(moved, c.triggerEnable, k);
      ZeroHasNoPins(k);
    }
    if Unmoved(c, before, after) {
      SamePins(changed, 0);
    } else {
      var k :| 0 <= k < 32 && Pin(c.triggerEnable, k) && Pin(before, k) != Pin(after, k);
      HasPinIsNotZero(changed, k);
    }
  }

  /** With every active pin an output, the arithmetic rules act on the whole word. */
  lemma WholeWordArithmetic(s: State, x: Word32)
    requires Confined(s) && s.cfg.direction == Active(s.cfg)
    ensures AfterWrite(s, 5, x).value == Clamp(x + s.value, Active(s.cfg))
    ensures AfterWrite(s, 6, x).value == Clamp(x - s.value, Active(s.cfg))
  {
    hide Pin;
    hide AfterWrite;
    hide LowBits;
    var a := Active(s.cfg);
    var sum, diff := Clamp(x + s.value, a), Clamp(x - s.value, a);
    NothingLeft(s.value, a);
    forall k | 0 <= k < 32
      ensures Pin(AfterWrite(s, 5, x).value, k) == Pin(sum, k) && Pin(AfterWrite(s, 6, x).value, k) == Pin(diff, k)
    {
      WritePins(s, 5, x, k);
      WritePins(s, 6, x, k);
      MaskPins(s.cfg, k);
      if Pin(sum, k) {
        SmallerStaysInside(s.cfg.pinCount, sum, k);
      }
      if Pin(diff, k) {
        SmallerStaysInside(s.cfg.pinCount, diff, k);
      }
    }
    SamePins(AfterWrite(s, 5, x).value, sum);
    SamePins(AfterWrite(s, 6, x).value, diff);
  }

  /** A number up to the mask has no bit beyond it. */
  lemma SmallerStaysInside(n: nat, v: Word32, k: nat)
    requires v <= LowBits(n) && k < 32 && Pin(v, k)
    ensures k < n
  {
    hide Pin;
    SmallHasLowPins(v, if n >= 32 then 32 else n, k);
  }

  // ------------------------------------------------------------- every run

  /** The pin word uses active pins only, and so do the masks. */
  predicate Confined(s: State) {
    && Except(s.value, Active(s.cfg)) == 0
    && Except(s.cfg.direction, Active(s.cfg)) == 0
    && Except(s.cfg.triggerEnable, Active(s.cfg)) == 0
  }

  /** The word has no pin from `n` on. */
  predicate Below(v: Word32, n: nat) {
    forall k :: 0 <= k < 32 && Pin(v, k) ==> k < n
  }

  lemma ConfinedMeans(v: Word32, c: Config)
    ensures Except(v, Active(c)) == 0 <==> Below(v, c.pinCount)
  {
    hide Pin;
    hide Except;
    hide LowBits;
    NothingLeft(v, Active(c));
    forall k | 0 <= k < 32 ensures Pin(Active(c), k) <==> k < c.pinCount {
      LowBitsPins(c.pinCount, k);
    }
  }

  lemma StepConfined(s: State, o: Op)
    requires Confined(s)
    ensures Confined(Step(s, o))
  {
    hide Pin;
    hide Except;
    hide AfterWrite;
    hide AfterInputs;
    hide AfterConfigure;
    hide LowBits;
    var s' := Step(s, o);
    ConfinedMeans(s.value, s.cfg);
    ConfinedMeans(s'.value, s'.cfg);
    ConfinedMeans(s'.cfg.direction, s'.cfg);
    ConfinedMeans(s'.cfg.triggerEnable, s'.cfg);
    match o {
      case Inputs(mask) =>
        InputPins(s, mask, 0);
        forall k | 0 <= k < 32 && Pin(s'.value, k) ensures k < s.cfg.pinCount {
          InputPins(s, mask, k);
        }
      case Write(op, x) =>
        WritePins(s, op, x, 0);
        forall k | 0 <= k < 32 && Pin(s'.value, k) ensures k < s.cfg.pinCount {
          WritePins(s, op, x, k);
        }
      case Drain =>
      case Configure(c, persisted) =>
        ConfigurePins(s, c, persisted);
    }
  }

  /** In every run the pin word stays inside the active mask. */
  lemma {:induction false} RunConfined(ops: seq<Op>)
    ensures Confined(Run(Unconfigured(), ops))
  {
    hide Step;
    hide Except;
    hide LowBits;
    if ops == [] {
      hide Pin;
      forall k: nat ensures !Pin(0, k) {
        ZeroHasNoPins(k);
      }
      ConfinedMeans(0, Config(0, 0, 0));
    } else {
      RunConfined(ops[..|ops| - 1]);
      StepConfined(Run(Unconfigured(), ops[..|ops| - 1]), ops[|ops| - 1]);
    }
  }

  /** A write moves no input pin, and external inputs move no output pin. */
  lemma DirectionsAreRespected(s: State, mask: Word32, op: nat, operand: Word32, k: nat)
    requires k < 32
    ensures IsInput(s.cfg, k) ==> Pin(AfterWrite(s, op, operand).value, k) == Pin(s.value, k)
    ensures IsOutput(s.cfg, k) ==> Pin(AfterInputs(s, mask).value, k) == Pin(s.value, k)
  {
    hide Pin;
    hide AfterWrite;
    hide AfterInputs;
    WritePins(s, op, operand, k);
    InputPins(s, mask, k);
  }

  // ----------------------------------------------------------------- triggers

  /** Every event queued during a run, drained or not, in order. */
  function Emitted(s: State, ops: seq<Op>): seq<TriggerEvent> {
    if ops == [] then []
    else
      var before := Run(s, ops[..|ops| - 1]);
      Emitted(s, ops[..|ops| - 1]) + NewEvents(before, ops[|ops| - 1])
  }

  function NewEvents(s: State, o: Op): seq<TriggerEvent> {
    if o.Inputs? || o.Write? then Events(s.cfg, s.value, Step(s, o).value) else []
  }

  /** Every batch handed out by Drain during a run, concatenated. */
  function Drained(s: State, ops: seq<Op>): seq<TriggerEvent> {
    if ops == [] then []
    else
      var before := Run(s, ops[..|ops| - 1]);
      Drained(s, ops[..|ops| - 1]) + if ops[|ops| - 1].Drain? then before.triggers else []
  }

  lemma NoMoveNoEvent(c: Config, v: Word32)
    ensures Events(c, v, v) == []
  {
    hide Pin;
    hide Events;
    EventPins(c, v, v);
  }

  lemma StepQueues(s: State, o: Op)
    requires !o.Drain?
    ensures Step(s, o).triggers == s.triggers + NewEvents(s, o)
  {
    hide Events;
    hide Drive;
    hide ApplyWriteOp;
    hide Validate;
    hide And;
    NoMoveNoEvent(s.cfg, s.value);
    assert s.triggers + [] == s.triggers;
  }

  /** Nothing is lost, duplicated or reordered between queueing and draining. */
  lemma {:induction false} TriggersConserved(s: State, ops: seq<Op>)
    ensures s.triggers + Emitted(s, ops) == Drained(s, ops) + Run(s, ops).triggers
  {
    hide Step;
    hide NewEvents;
    if ops != [] {
      var rest, o := ops[..|ops| - 1], ops[|ops| - 1];
      TriggersConserved(s, rest);
      var before := Run(s, rest);
      if o.Drain? {
        DrainStep(before);
        assert Drained(s, rest) + before.triggers + [] == Drained(s, rest) + before.triggers;
        assert s.triggers + (Emitted(s, rest) + []) == s.triggers + Emitted(s, rest);
      } else {
        StepQueues(before, o);
        assert s.triggers + (Emitted(s, rest) + NewEvents(before, o))
            == (s.triggers + Emitted(s, rest)) + NewEvents(before, o);
        assert Drained(s, rest) + [] == Drained(s, rest);
        assert Drained(s, rest) + (before.triggers + NewEvents(before, o))
            == (Drained(s, rest) + before.triggers) + NewEvents(before, o);
      }
    }
  }

  lemma DrainStep(s: State)
    ensures Step(s, Drain).triggers == [] && NewEvents(s, Drain) == []
  {
  }

  function XorAll(es: seq<TriggerEvent>): Word32 {
    if es == [] then 0 else Xor(XorAll(es[..|es| - 1]), es[|es| - 1].changedMask)
  }

  lemma EventsXor(es: seq<TriggerEvent>, c: Config, before: Word32, after: Word32)
    ensures XorAll(es + Events(c, before, after)) == Xor(XorAll(es), And(Xor(before, after), c.triggerEnable))
  {
    hide And;
    hide Xor;
    var e := Events(c, before, after);
    XorZero(XorAll(es));
    if e == [] {
      assert es + e == es;
    } else {
      assert (es + e)[..|es|] == es;
    }
  }

  lemma XorZero(v: Word32)
    ensures Xor(v, 0) == v
  {
    hide Pin;
    hide Xor;
    forall k | 0 <= k < 32 ensures Pin(Xor(v, 0), k) == Pin(v, k) {
      PinsOf(v, 0, k);
      ZeroHasNoPins(k);
    }
    SamePins(Xor(v, 0), v);
  }

  lemma Telescopes(start: Word32, mid: Word32, end: Word32, enabled: Word32)
    ensures Xor(And(Xor(start, mid), enabled), And(Xor(mid, end), enabled)) == And(Xor(start, end), enabled)
    ensures And(Xor(start, start), enabled) == 0
  {
    hide Pin;
    hide And;
    hide Xor;
    var a, b := And(Xor(start, mid), enabled), And(Xor(mid, end), enabled);
    var whole, none := And(Xor(start, end), enabled), And(Xor(start, start), enabled);
    forall k | 0 <= k < 32 ensures Pin(Xor(a, b), k) == Pin(whole, k) && Pin(none, k) == Pin(0, k) {
      PinsOf(start, mid, k);
      PinsOf(mid, end, k);
      PinsOf(start, end, k);
      PinsOf(start, start, k);
      PinsOf(Xor(start, mid), enabled, k);
      PinsOf(Xor(mid, end), enabled, k);
      PinsOf(Xor(start, end), enabled, k);
      PinsOf(Xor(start, start), enabled, k);
      PinsOf(a, b, k);
      ZeroHasNoPins(k);
    }
    SamePins(Xor(a, b), whole);
    SamePins(none, 0);
  }

  lemma StepMoves(s: State, o: Op)
    requires !o.Configure?
    ensures Step(s, o).cfg == s.cfg
    ensures NewEvents(s, o) == Events(s.cfg, s.value, Step(s, o).value)
  {
    hide Events;
    hide Drive;
    hide ApplyWriteOp;
    hide And;
    NoMoveNoEvent(s.cfg, s.value);
  }

  /** Between reconfigurations the changed masks of all queued events, xored
      together, are exactly the enabled pins in which the start and the current
      word differ: a listener that applies them all is in step. */
  lemma {:induction false} ChangedMasksTelescope(s: State, ops: seq<Op>)
    requires forall i :: 0 <= i < |ops| ==> !ops[i].Configure?
    ensures Run(s, ops).cfg == s.cfg
    ensures XorAll(Emitted(s, ops)) == And(Xor(s.value, Run(s, ops).value), s.cfg.triggerEnable)
  {
    hide Step;
    hide NewEvents;
    hide Events;
    hide XorAll;
    hide And;
    hide Xor;
    Telescopes(s.value, s.value, s.value, s.cfg.triggerEnable);
    if ops == [] {
      NoEvents();
    } else {
      var rest, o := ops[..|ops| - 1], ops[|ops| - 1];
      ChangedMasksTelescope(s, rest);
      var before := Run(s, rest);
      var after := Step(before, o);
      StepMoves(before, o);
      EventsXor(Emitted(s, rest), s.cfg, before.value, after.value);
      Telescopes(s.value, before.value, after.value, s.cfg.triggerEnable);
    }
  }

  lemma NoEvents()
    ensures XorAll([]) == 0
  {
  }

  /** Writing the same toggle twice restores the word. */
  lemma ToggleTwice(s: State, x: Word32)
    ensures AfterWrite(AfterWrite(s, 3, x), 3, x).value == s.value
  {
    hide Pin;
    hide AfterWrite;
    var once := AfterWrite(s, 3, x);
    forall k | 0 <= k < 32 ensures Pin(AfterWrite(once, 3, x).value, k) == Pin(s.value, k) {
      WritePins(s, 3, x, k);
      WritePins(once, 3, x, k);
    }
    SamePins(AfterWrite(once, 3, x).value, s.value);
  }
}
