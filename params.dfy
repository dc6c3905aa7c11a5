// The argument container: eight inline slots, then an overflow array, plus the
// cursor used when the container serves as its own generator.

module Parameters {
  import opened Wrappers
  import opened Values

  class Params {
    var a0: Option<Value>
    var a1: Option<Value>
    var a2: Option<Value>
    var a3: Option<Value>
    var a4: Option<Value>
    var a5: Option<Value>
    var a6: Option<Value>
    var a7: Option<Value>
    /** Every parameter from the ninth onwards; absent until the ninth is appended. */
    var others: Option<seq<Value>>
    var count: nat
    /** The generator cursor advanced by `Next`. */
    var index: nat

    /** The abstract value: the appended parameters in order. */
    ghost var Contents: seq<Value>

    /** What slot `i` holds when the first `count` parameters are stored inline. */
    ghost function Expected(i: nat): Option<Value>
      reads this
    {
      if i < |Contents| then Some(Contents[i]) else None
    }

    /** Slots below `count` hold the first parameters, the rest are empty; the overflow array
        exists exactly when there are more than eight; the cursor never passes `count`. */
    ghost predicate Valid()
      reads this
    {
      && count == |Contents|
      && index <= count
      && a0 == Expected(0) && a1 == Expected(1) && a2 == Expected(2) && a3 == Expected(3)
      && a4 == Expected(4) && a5 == Expected(5) && a6 == Expected(6) && a7 == Expected(7)
      && others == (if count > 8 then Some(Contents[8..]) else None)
    }

    /** `init()`. */
    constructor Empty()
      ensures Valid() && Contents == [] && index == 0
    {
      a0, a1, a2, a3, a4, a5, a6, a7 := None, None, None, None, None, None, None, None;
      others := None;
      count, index := 0, 0;
      Contents := [];
    }

    /** `init(_:)`. */
    constructor One(v0: Value)
      ensures Valid() && Contents == [v0] && index == 0
    {
      a0, a1, a2, a3, a4, a5, a6, a7 := Some(v0), None, None, None, None, None, None, None;
      others := None;
      count, index := 1, 0;
      Contents := [v0];
    }

    /** `init(_:_:)`. */
    constructor Two(v0: Value, v1: Value)
      ensures Valid() && Contents == [v0, v1] && index == 0
    {
      a0, a1, a2, a3, a4, a5, a6, a7 := Some(v0), Some(v1), None, None, None, None, None, None;
      others := None;
      count, index := 2, 0;
      Contents := [v0, v1];
    }

    /** `init(_:_:_:)`. */
    constructor Three(v0: Value, v1: Value, v2: Value)
      ensures Valid() && Contents == [v0, v1, v2] && index == 0
    {
      a0, a1, a2, a3, a4, a5, a6, a7 := Some(v0), Some(v1), Some(v2), None, None, None, None, None;
      others := None;
      count, index := 3, 0;
      Contents := [v0, v1, v2];
    }

    /** The subscript: the idx-th appended value, from a slot or from the overflow array. */
    function Get(idx: nat): (v: Value)
      reads this
      requires Valid() && idx < count
      ensures v == Contents[idx]
    {
      match idx
      case 0 => a0.value
      case 1 => a1.value
      case 2 => a2.value
      case 3 => a3.value
      case 4 => a4.value
      case 5 => a5.value
      case 6 => a6.value
      case 7 => a7.value
      case _ => others.value[idx - 8]
    }

    /** `first`: slot zero, which is empty exactly when nothing was appended. */
    function First(): (r: Option<Value>)
      reads this
      requires Valid()
      ensures r == if Contents == [] then None else Some(Contents[0])
    {
      a0
    }

    /** `last`: empty for an empty container, else the most recently appended value. */
    function Last(): (r: Option<Value>)
      reads this
      requires Valid()
      ensures r == if Contents == [] then None else Some(Contents[|Contents| - 1])
    {
      if count == 0 then None else Some(Get(count - 1))
    }

    /** Push a value into the next free slot, or onto the overflow array. */
    method Append(v: Value)
      requires Valid()
      modifies this
      ensures Valid()
      ensures Contents == old(Contents) + [v] && index == old(index)
    {
      match count {
      case 0 => a0 := Some(v);
      case 1 => a1 := Some(v);
      case 2 => a2 := Some(v);
      case 3 => a3 := Some(v);
      case 4 => a4 := Some(v);
      case 5 => a5 := Some(v);
      case 6 => a6 := Some(v);
      case 7 => a7 := Some(v);
      case _ =>
        if others.Some? {
          others := Some(others.value + [v]);
        }
        if others.None? {
          others := Some([v]);
        }
      }
      assert count >= 8 ==> (Contents + [v])[8..] == Contents[8..] + [v];
      count := count + 1;
      Contents := Contents + [v];
    }

    /** The generator step: the value under the cursor, advancing it, or nothing once exhausted. */
    method Next() returns (r: Option<Value>)
      requires Valid()
      modifies this`index
      ensures Valid()
      ensures old(index) < count ==> r == Some(Contents[old(index)]) && index == old(index) + 1
      ensures old(index) >= count ==> r == None && index == old(index)
    {
      if !(index < count) {
        return None;
      }
      var value := Get(index);
      index := index + 1;
      return Some(value);
    }

    /** `asArray`: the values a generator copy of this container yields, in order. */
    method AsArray() returns (buffer: seq<Value>)
      requires Valid()
      ensures buffer == Contents[index..]
      ensures index == 0 ==> |buffer| == count && forall i :: 0 <= i < count ==> buffer[i] == Get(i)
    {
      buffer := [];
      var cursor := index;
      while cursor < count
        invariant index <= cursor <= count
        invariant buffer == Contents[index..cursor]
      {
        buffer := buffer + [Get(cursor)];
        cursor := cursor + 1;
      }
    }

    /** `rest`: everything after the first value a generator copy yields. */
    method Rest() returns (r: Params)
      requires Valid()
      ensures fresh(r) && r.Valid() && r.index == 0
      ensures r.Contents == if index < count then Contents[index + 1..] else []
    {
      if count == 0 {
        r := new Params.Empty();
        return;
      }
      r := new Params.Empty();
      var cursor, idx := index, 0;
      while cursor < count
        invariant index <= cursor <= count && idx == cursor - index
        invariant r.Valid() && r.index == 0 && fresh(r)
        invariant r.Contents == if idx == 0 then [] else Contents[index + 1..cursor]
      {
        if idx > 0 {
          r.Append(Get(cursor));
        }
        cursor, idx := cursor + 1, idx + 1;
      }
    }

    /** `prefixedBy`: a new container holding `prefix` and then the values of this one; this one is untouched. */
    method PrefixedBy(prefix: Value) returns (r: Params)
      requires Valid()
      ensures fresh(r) && r.Valid() && r.index == 0
      ensures r.Contents == [prefix] + Contents[index..]
    {
      r := new Params.One(prefix);
      var cursor := index;
      while cursor < count
        invariant index <= cursor <= count
        invariant r.Valid() && r.index == 0 && fresh(r)
        invariant r.Contents == [prefix] + Contents[index..cursor]
      {
        r.Append(Get(cursor));
        cursor := cursor + 1;
      }
    }
  }
}
