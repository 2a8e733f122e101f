/** Command prioritization (section 19.2 of ASHRAE 135-2020) in the Analog Output object. */
module AnalogOutputs {
  import opened Machine
  import opened BacnetTypes
  import opened PropertyIds
  import opened SimValues

  const NUM_PRIORITIES: nat := 16

  type Slot = Option<real>

  datatype Output = Output(
    slots: seq<Slot>,
    presentValue: real,
    relinquishDefault: real,
    outOfService: bool,
    description: Bytes,
    lastChanged: nat)

  datatype Write = Write(propertyId: PropertyIdentifier, value: SimValue, priority: Option<U8>, now: nat)

  /** The value of the first slot that is taken. */
  function Effective(slots: seq<Slot>, fallback: real): real {
    if slots == [] then fallback
    else if slots[0].Some? then slots[0].value
    else Effective(slots[1..], fallback)
  }

  function PriorityOf(w: Write): U8 {
    match w.priority
    case Some(p) => p
    case None => 16
  }

  /** What a write does to the object, and the error it is refused with. */
  function Written(o: Output, w: Write): (Output, Option<BacnetError>)
    requires |o.slots| == NUM_PRIORITIES
  {
    match w.propertyId
    case PresentValue =>
      if !(1 <= PriorityOf(w) <= 16) then (o, Some(BacnetError.ValueOutOfRange))
      else if !w.value.Null? && w.value.AsF32() == None then (o, Some(InvalidDataType))
      else
        var slots := o.slots[PriorityOf(w) - 1 := if w.value.Null? then None else w.value.AsF32()];
        (o.(slots := slots, presentValue := Effective(slots, o.relinquishDefault), lastChanged := w.now), None)
    case OutOfService =>
      if w.value.AsBool() == None then (o, Some(InvalidDataType))
      else (o.(outOfService := w.value.AsBool().value), None)
    case Description =>
      if w.value.CharacterString? then (o.(description := w.value.text), None) else (o, Some(InvalidDataType))
    case _ => (o, Some(BacnetError.WriteAccessDenied))
  }

  class AnalogOutput {
    const priorityArray: array<Slot>
    var presentValue: real
    var relinquishDefault: real
    var outOfService: bool
    var description: Bytes
    var lastChanged: nat

    predicate Valid()
      reads this
    {
      priorityArray.Length == NUM_PRIORITIES
    }

    function View(): Output
      reads this, priorityArray
    {
      Output(priorityArray[..], presentValue, relinquishDefault, outOfService, description, lastChanged)
    }

    constructor (now: nat)
      ensures Valid() && fresh(priorityArray)
      ensures View() == FRESH.(lastChanged := now)
    {
      priorityArray := new Slot[16](_ => None);
      presentValue := 0.0;
      relinquishDefault := 0.0;
      outOfService := false;
      description := [];
      lastChanged := now;
      new;
      assert priorityArray[..] == FRESH.slots;
    }

    method EffectiveValue() returns (v: real)
      requires Valid()
      ensures v == Effective(priorityArray[..], relinquishDefault)
    {
      for i := 0 to NUM_PRIORITIES
        invariant Effective(priorityArray[..], relinquishDefault) == Effective(priorityArray[i..], relinquishDefault)
      {
        if priorityArray[i].Some? {
          return priorityArray[i].value;
        }
        assert priorityArray[i..][1..] == priorityArray[i + 1..];
      }
      return relinquishDefault;
    }

    method WriteProperty(w: Write) returns (error: Option<BacnetError>)
      requires Valid()
      modifies this, priorityArray
      ensures Valid() && (View(), error) == Written(old(View()), w)
    {
      hide Effective;
      match w.propertyId
      case PresentValue =>
        var pri := PriorityOf(w);
        if !(1 <= pri <= 16) {
          return Some(BacnetError.ValueOutOfRange);
        }
        if w.value.Null? {
          priorityArray[pri - 1] := None;
        } else {
          var number := w.value.AsF32();
          if number == None {
            return Some(InvalidDataType);
          }
          priorityArray[pri - 1] := number;
        }
        presentValue := EffectiveValue();
        lastChanged := w.now;
        return None;
      case OutOfService =>
        var flag := w.value.AsBool();
        if flag == None {
          return Some(InvalidDataType);
        }
        outOfService := flag.value;
        return None;
      case Description =>
        if w.value.CharacterString? {
          description := w.value.text;
          return None;
        }
        return Some(InvalidDataType);
      case _ =>
        return Some(BacnetError.WriteAccessDenied);
    }

    /** The simulation's own write.  It differs from an ordinary write without priority only in the error. */
    method ForceWriteProperty(propertyId: PropertyIdentifier, value: SimValue, now: nat)
        returns (error: Option<BacnetError>)
      requires Valid()
      modifies this, priorityArray
      ensures Valid() && View() == Written(old(View()), Write(propertyId, value, None, now)).0
      ensures error ==
        match Written(old(View()), Write(propertyId, value, None, now)).1
        case Some(e) =>
          Some(if propertyId == PresentValue && !old(outOfService) then e else BacnetError.WriteAccessDenied)
        case None => None
    {
      hide Effective;
      var first := WriteProperty(Write(propertyId, value, None, now));
      if first == None {
        return None;
      }
      if propertyId == PresentValue && !outOfService {
        var a := WriteProperty(Write(OutOfService, SimValue.Boolean(true), None, now));
        error := WriteProperty(Write(propertyId, value, None, now));
        var b := WriteProperty(Write(OutOfService, SimValue.Boolean(false), None, now));
        return error;
      }
      return Some(BacnetError.WriteAccessDenied);
    }

    /** Reading the array by index: index 0 gives the first slot, an index beyond the end the last one. */
    method ReadPriorityArray(index: U32) returns (v: SimValue)
      requires Valid()
      ensures var slot := priorityArray[if index == 0 then 0 else if index <= 16 then index - 1 else 15];
        if slot.Some? then v == SimValue.Real(slot.value) else v == SimValue.Null
    {
      var i := if index == 0 then 0 else if index - 1 < NUM_PRIORITIES - 1 then index - 1 else NUM_PRIORITIES - 1;
      v := SlotValue(priorityArray[i]);
    }
  }

  function SlotValue(slot: Slot): SimValue {
    match slot
    case Some(v) => SimValue.Real(v)
    case None => SimValue.Null
  }

  const FRESH: Output := Output(seq(NUM_PRIORITIES, i => None), 0.0, 0.0, false, [], 0)

  // ---- Histories ---------------------------------------------------------------------------

  function After(o: Output, writes: seq<Write>): (after: Output)
    requires |o.slots| == NUM_PRIORITIES
    ensures |after.slots| == NUM_PRIORITIES
    decreases |writes|
  {
    if writes == [] then o else Written(After(o, writes[..|writes| - 1]), writes[|writes| - 1]).0
  }

  /** Null, and numbers of all four types. */
  predicate MayCommand(value: SimValue) {
    value.Null? || value.Real? || value.Double? || value.Unsigned? || value.Integer?
  }

  /** The number that a value stands for. */
  function NumberIn(value: SimValue): Option<real> {
    match value
    case Real(v) => Some(v)
    case Double(v) => Some(v)
    case Unsigned(v) => Some(v as real)
    case Integer(v) => Some(v as real)
    case _ => None
  }

  lemma NumbersCommand(value: SimValue)
    ensures value.AsF32() == NumberIn(value)
    ensures MayCommand(value) <==> value.Null? || value.AsF32().Some?
  {
  }

  /** Which writes are accepted, and with which error each of the others is refused. */
  lemma AcceptedExactly(o: Output, w: Write)
    requires |o.slots| == NUM_PRIORITIES
    ensures var error := Written(o, w).1;
      if w.propertyId == PresentValue then
        if w.priority.Some? && !(1 <= w.priority.value <= 16) then error == Some(BacnetError.ValueOutOfRange)
        else error == if MayCommand(w.value) then None else Some(InvalidDataType)
      else if w.propertyId == OutOfService then
        error == if w.value.Boolean? || w.value.Enumerated? then None else Some(InvalidDataType)
      else if w.propertyId == Description then
        error == if w.value.CharacterString? then None else Some(InvalidDataType)
      else error == Some(BacnetError.WriteAccessDenied)
  {
    hide Effective;
  }

  /** What a write changes: nothing when it is refused, otherwise just what it is about. */
  lemma ChangesExactly(o: Output, w: Write)
    requires |o.slots| == NUM_PRIORITIES
    ensures var (after, error) := Written(o, w);
      if error.Some? then after == o
      else if w.propertyId == PresentValue then
        var p: int := if w.priority.Some? then w.priority.value else 16;
        1 <= p <= 16 && |after.slots| == 16
        && (forall i :: 0 <= i < 16 && i != p - 1 ==> after.slots[i] == o.slots[i])
        && after.slots[p - 1] == NumberIn(w.value)
        && after == o.(slots := after.slots, presentValue := after.presentValue, lastChanged := w.now)
      else if w.propertyId == OutOfService then
        after == o.(outOfService := if w.value.Boolean? then w.value.flag else w.value.enumerated != 0)
      else after == o.(description := w.value.text)
  {
    hide Effective;
    if w.value.Null? {
      assert NumberIn(w.value) == None;
    }
  }

  /** A write that is accepted into the slot of priority `p`. */
  predicate AcceptedAt(w: Write, p: nat) {
    w.propertyId == PresentValue && (w.priority == Some(p) || (w.priority == None && p == 16)) && MayCommand(w.value)
  }

  /** The latest accepted write into the slot. */
  predicate LatestAt(writes: seq<Write>, p: nat, i: nat) {
    i < |writes| && AcceptedAt(writes[i], p) && forall j :: i < j < |writes| ==> !AcceptedAt(writes[j], p)
  }

  predicate Puts(w: Write, v: real) {
    NumberIn(w.value) == Some(v)
  }

  /** The slot's latest accepted write commands this value. */
  ghost predicate Commands(writes: seq<Write>, p: nat, v: real) {
    exists i: nat :: LatestAt(writes, p, i) && Puts(writes[i], v)
  }

  lemma WrittenSlot(o: Output, w: Write, p: nat)
    requires |o.slots| == NUM_PRIORITIES && 1 <= p <= 16
    ensures var after := Written(o, w).0;
      |after.slots| == NUM_PRIORITIES && after.relinquishDefault == o.relinquishDefault
      && (AcceptedAt(w, p) ==> forall v :: after.slots[p - 1] == Some(v) <==> Puts(w, v))
      && (!AcceptedAt(w, p) ==> after.slots[p - 1] == o.slots[p - 1])
  {
    hide Effective;
  }

  lemma CommandsNext(writes: seq<Write>, p: nat, v: real)
    requires writes != []
    ensures var n := |writes| - 1;
      Commands(writes, p, v) <==> if AcceptedAt(writes[n], p) then Puts(writes[n], v) else Commands(writes[..n], p, v)
  {
    hide AcceptedAt, Puts;
    var n := |writes| - 1;
    if AcceptedAt(writes[n], p) {
      assert LatestAt(writes, p, n);
    } else {
      forall i: nat ensures LatestAt(writes, p, i) <==> LatestAt(writes[..n], p, i) {
        if LatestAt(writes[..n], p, i) {
          forall j | i < j < |writes| ensures !AcceptedAt(writes[j], p) {
            assert j < n ==> writes[..n][j] == writes[j];
          }
        }
        if LatestAt(writes, p, i) {
          assert i != n;
          forall j | i < j < n ensures !AcceptedAt(writes[..n][j], p) {
            assert writes[..n][j] == writes[j];
          }
        }
      }
    }
  }

  /** A slot holds a value exactly when its latest accepted write commands it. */
  lemma {:induction false} SlotFromHistory(writes: seq<Write>, p: nat, v: real)
    requires 1 <= p <= 16
    ensures After(FRESH, writes).slots[p - 1] == Some(v) <==> Commands(writes, p, v)
    decreases |writes|
  {
    hide Written, AcceptedAt, Commands;
    if writes == [] {
      NoCommands(p, v);
    } else {
      var n := |writes| - 1;
      SlotFromHistory(writes[..n], p, v);
      WrittenSlot(After(FRESH, writes[..n]), writes[n], p);
      CommandsNext(writes, p, v);
    }
  }

  lemma NoCommands(p: nat, v: real)
    ensures !Commands([], p, v)
  {
  }

  predicate Consistent(o: Output) {
    |o.slots| == NUM_PRIORITIES && o.presentValue == Effective(o.slots, o.relinquishDefault)
  }

  lemma EffectiveAt(slots: seq<Slot>, fallback: real, i: nat)
    requires i <= |slots| && forall j :: 0 <= j < i ==> slots[j] == None
    ensures Effective(slots, fallback) ==
      if i == |slots| then fallback else if slots[i].Some? then slots[i].value else Effective(slots[i..], fallback)
  {
    if i > 0 {
      EffectiveAt(slots[1..], fallback, i - 1);
    }
  }

  /** The present value is the effective value after any writes, accepted, refused or relinquishing. */
  lemma {:induction false} PresentIsEffective(o: Output, writes: seq<Write>)
    requires Consistent(o)
    ensures Consistent(After(o, writes)) && After(o, writes).relinquishDefault == o.relinquishDefault
    decreases |writes|
  {
    hide Effective;
    if writes != [] {
      PresentIsEffective(o, writes[..|writes| - 1]);
    }
  }

  ghost predicate Silent(writes: seq<Write>, p: nat) {
    forall v :: !Commands(writes, p, v)
  }

  lemma SilentSlot(writes: seq<Write>, p: nat)
    requires 1 <= p <= 16
    ensures Silent(writes, p) <==> After(FRESH, writes).slots[p - 1] == None
  {
    hide Commands, After;
    var slot := After(FRESH, writes).slots[p - 1];
    forall v ensures slot == Some(v) <==> Commands(writes, p, v) {
      SlotFromHistory(writes, p, v);
    }
    if slot.Some? {
      assert Commands(writes, p, slot.value);
    }
  }

  /** The main result: after any writes the present value is what the latest accepted write of the highest
      commanding priority put there, and the relinquish default when no priority commands. */
  lemma PresentValueFromHistory(writes: seq<Write>)
    ensures var after := After(FRESH, writes);
      (forall p: nat, v :: 1 <= p <= 16 && Commands(writes, p, v) && (forall q: nat :: 1 <= q < p ==> Silent(writes, q))
        ==> after.presentValue == v)
      && ((forall p: nat :: 1 <= p <= 16 ==> Silent(writes, p)) ==>
        after.presentValue == after.relinquishDefault == 0.0)
  {
    hide Commands, Silent, Effective, After;
    var after := After(FRESH, writes);
    assert Consistent(FRESH) by { EffectiveAt(FRESH.slots, 0.0, 16); }
    PresentIsEffective(FRESH, writes);
    forall q: nat | 1 <= q <= 16 ensures Silent(writes, q) <==> after.slots[q - 1] == None {
      SilentSlot(writes, q);
    }
    forall p: nat, v | 1 <= p <= 16 && Commands(writes, p, v) && (forall q: nat :: 1 <= q < p ==> Silent(writes, q))
      ensures after.presentValue == v
    {
      SlotFromHistory(writes, p, v);
      forall j | 0 <= j < p - 1 ensures after.slots[j] == None {
        assert Silent(writes, j + 1);
      }
      EffectiveAt(after.slots, after.relinquishDefault, p - 1);
    }
    if forall p: nat :: 1 <= p <= 16 ==> Silent(writes, p) {
      forall j | 0 <= j < 16 ensures after.slots[j] == None {
        assert Silent(writes, j + 1);
      }
      EffectiveAt(after.slots, after.relinquishDefault, 16);
    }
  }

  lemma {:induction false} FirstTaken(slots: seq<Slot>, i: nat) returns (first: nat)
    requires i < |slots| && slots[i].Some?
    ensures first <= i && slots[first].Some? && forall j :: 0 <= j < first ==> slots[j] == None
    decreases i
  {
    if j :| 0 <= j < i && slots[j].Some? {
      first := FirstTaken(slots, j);
    } else {
      first := i;
    }
  }

  /** The simulation writes at the lowest priority: it cannot move the present value while a higher priority
      commands. */
  lemma SimulationDoesNotOverride(o: Output, v: real, now: nat, p: nat)
    requires Consistent(o) && 1 <= p < 16 && o.slots[p - 1].Some?
    ensures Written(o, Write(PresentValue, SimValue.Real(v), None, now)).0.presentValue == o.presentValue
  {
    hide Effective;
    var first := FirstTaken(o.slots, p - 1);
    EffectiveAt(o.slots, o.relinquishDefault, first);
    EffectiveAt(o.slots[15 := Some(v)], o.relinquishDefault, first);
  }

  /** The simulation's write always succeeds and takes slot 16, and its value is what the object shows from then on
      exactly when no higher priority commands another one. */
  lemma SimulationWrite(o: Output, v: real, now: nat)
    requires Consistent(o)
    ensures var (after, error) := Written(o, Write(PresentValue, SimValue.Real(v), None, now));
      error == None && after.slots == o.slots[15 := Some(v)] && after.lastChanged == now
      && ((forall i :: 0 <= i < 15 ==> o.slots[i] == None) ==> after.presentValue == v)
      && ((exists i :: 0 <= i < 15 && o.slots[i].Some?) ==> after.presentValue == o.presentValue)
  {
    hide Effective;
    if i :| 0 <= i < 15 && o.slots[i].Some? {
      SimulationDoesNotOverride(o, v, now, i + 1);
    } else {
      EffectiveAt(o.slots[15 := Some(v)], o.relinquishDefault, 15);
    }
  }
}
