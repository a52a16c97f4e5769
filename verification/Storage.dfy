/** The id-indexed table of wgpu-core/src/storage.rs. */
module Storage {
  import opened Integers
  import opened Wrappers
  import opened RawIds

  datatype Element<T> = Vacant | Occupied(value: T, epoch: U32)

  /** What an insertion found in the element it replaced. */
  datatype Found = WasVacant | OverwroteOtherEpoch | PanickedSameEpoch

  datatype Panic = DoesNotExist | EpochMismatch

  function Grown<T>(elements: seq<Element<T>>, index: nat): (r: seq<Element<T>>)
    ensures index < |r| && elements <= r
    ensures forall i | |elements| <= i < |r| :: r[i].Vacant?
  {
    if index < |elements| then elements else elements + seq(index + 1 - |elements|, _ => Vacant)
  }

  function Inserted<T>(elements: seq<Element<T>>, id: Id, value: T): (seq<Element<T>>, Found) {
    var grown := Grown(elements, id.index);
    var found := match grown[id.index]
      case Vacant => WasVacant
      case Occupied(_, epoch) => if epoch == id.epoch then PanickedSameEpoch else OverwroteOtherEpoch;
    (grown[id.index := Occupied(value, id.epoch)], found)
  }

  /** The element is vacated before its epoch is compared, even if the comparison then panics. */
  function Removed<T>(elements: seq<Element<T>>, id: Id): (seq<Element<T>>, Result<T, Panic>) {
    if id.index >= |elements| then (elements, Err(DoesNotExist))
    else
      var rest := elements[id.index := Vacant];
      match elements[id.index]
      case Vacant => (rest, Err(DoesNotExist))
      case Occupied(value, epoch) => (rest, if epoch == id.epoch then Ok(value) else Err(EpochMismatch))
  }

  function Lookup<T>(elements: seq<Element<T>>, id: Id): Result<T, Panic> {
    if id.index >= |elements| || elements[id.index].Vacant? then Err(DoesNotExist)
    else if elements[id.index].epoch != id.epoch then Err(EpochMismatch)
    else Ok(elements[id.index].value)
  }

  /** An insertion makes its id resolve to its value, makes every other id of that index
      unresolvable, and changes nothing else, whatever its index. */
  lemma LookupAfterInsert<T>(elements: seq<Element<T>>, id: Id, value: T, x: Id)
    ensures Lookup(Inserted(elements, id, value).0, x) ==
            if x == id then Ok(value) else if x.index == id.index then Err(EpochMismatch) else Lookup(elements, x)
  {
  }

  lemma LookupAfterRemove<T>(elements: seq<Element<T>>, id: Id, x: Id)
    ensures Lookup(Removed(elements, id).0, x) == if x.index == id.index then Err(DoesNotExist) else Lookup(elements, x)
    ensures Removed(elements, id).1 == Lookup(elements, id)
  {
  }

  /** An insertion panics exactly if its id resolved before, overwrites in silence exactly if another id of its index
      did, and finds the element vacant otherwise. */
  lemma InsertionFinds<T>(elements: seq<Element<T>>, id: Id, value: T)
    ensures var found := Inserted(elements, id, value).1;
            && (found == PanickedSameEpoch <==> Lookup(elements, id).Ok?)
            && (found == OverwroteOtherEpoch <==>
                  exists x: Id :: x.index == id.index && x != id && Lookup(elements, x).Ok?)
  {
    if id.index < |elements| && elements[id.index].Occupied? {
      assert Lookup(elements, Id(id.index, elements[id.index].epoch)).Ok?;
    }
  }

  /** The ids of the occupied elements, which `iter` yields. */
  function OccupiedIds<T>(elements: seq<Element<T>>): (ids: set<Id>)
    requires |elements| <= U32_MODULUS
    ensures forall id | id in ids :: id.index < |elements|
  {
    if elements == [] then {}
    else
      var n := |elements| - 1;
      OccupiedIds(elements[..n]) + (if elements[n].Occupied? then {Id(n, elements[n].epoch)} else {})
  }

  lemma {:induction false} OccupiedIdsAreTheResolvable<T>(elements: seq<Element<T>>, id: Id)
    requires |elements| <= U32_MODULUS
    ensures id in OccupiedIds(elements) <==> Lookup(elements, id).Ok?
  {
    if elements == [] {
    } else {
      OccupiedIdsAreTheResolvable(elements[..|elements| - 1], id);
    }
  }

  function CountOccupied<T>(elements: seq<Element<T>>): (n: nat)
    ensures n <= |elements|
  {
    if elements == [] then 0
    else CountOccupied(elements[..|elements| - 1]) + (if elements[|elements| - 1].Occupied? then 1 else 0)
  }

  lemma {:induction false} CountOccupiedIsCardinality<T>(elements: seq<Element<T>>)
    requires |elements| <= U32_MODULUS
    ensures CountOccupied(elements) == |OccupiedIds(elements)|
  {
    if elements == [] {
    } else {
      CountOccupiedIsCardinality(elements[..|elements| - 1]);
    }
  }

  class Storage<T> {
    var elements: seq<Element<T>>

    constructor ()
      ensures elements == []
    {
      elements := [];
    }

    method Insert(id: Id, value: T) returns (found: Found)
      modifies this
      ensures (elements, found) == Inserted(old(elements), id, value)
    {
      var index, epoch := id.index, id.epoch;
      if index >= |elements| {
        elements := elements + seq(index + 1 - |elements|, _ => Vacant);
      }
      var replaced := elements[index];
      elements := elements[index := Occupied(value, epoch)];
      match replaced {
        case Vacant =>
          found := WasVacant;
        case Occupied(_, storageEpoch) =>
          found := if epoch == storageEpoch then PanickedSameEpoch else OverwroteOtherEpoch;
      }
    }

    method Remove(id: Id) returns (r: Result<T, Panic>)
      modifies this
      ensures (elements, r) == Removed(old(elements), id)
    {
      if id.index >= |elements| {
        return Err(DoesNotExist);
      }
      var stored := elements[id.index];
      elements := elements[id.index := Vacant];
      match stored {
        case Occupied(value, storageEpoch) =>
          r := if id.epoch == storageEpoch then Ok(value) else Err(EpochMismatch);
        case Vacant =>
          r := Err(DoesNotExist);
      }
    }

    method Get(id: Id) returns (r: Result<T, Panic>)
      ensures r == Lookup(elements, id)
    {
      if id.index >= |elements| || elements[id.index].Vacant? {
        return Err(DoesNotExist);
      }
      var Occupied(value, storageEpoch) := elements[id.index];
      if id.epoch != storageEpoch {
        return Err(EpochMismatch);
      }
      r := Ok(value);
    }
  }
}
