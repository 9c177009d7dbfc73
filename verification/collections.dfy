/** The hand-written containers: ArrayIndexedCollection (a growable array that
    refuses nulls), the Collection base class it overrides, and ObjectStack
    on top of it. A collection is a value: `elements` is the backing array, whose
    length is the capacity, and its first `size` slots hold the stored values. */
module Collections {
  import opened Wrappers

  /** The exceptions the containers throw. */
  datatype CollectionError =
    | IllegalArgument        // a null element, or an initial capacity below 1
    | IndexOutOfBounds       // an index outside the range the method documents
    | ArrayIndexOutOfBounds  // a read past the end of the backing array
    | EmptyStack
    | UnsupportedOperation

  const DefaultCapacity: nat := 16

  datatype ArrayIndexedCollection<T> = ArrayIndexedCollection(elements: seq<Option<T>>, size: nat) {

    /** At least one slot; the first `size` slots are occupied and the rest are null. */
    predicate Valid() {
      1 <= |elements| && size <= |elements|
      && (forall i :: 0 <= i < |elements| ==> (elements[i].Some? <==> i < size))
    }

    function Capacity(): nat {
      |elements|
    }

    /** The stored values, in index order. */
    function Items(): (r: seq<T>)
      requires Valid()
      ensures |r| == size
      ensures forall i :: 0 <= i < size ==> elements[i] == Some(r[i])
    {
      seq(size, i requires 0 <= i < size => elements[i].value)
    }
  }

  /** A valid collection whose occupied slots hold `s` has `s` as its items. */
  lemma ItemsAre<T>(c: ArrayIndexedCollection<T>, s: seq<T>)
    requires c.Valid() && |s| == c.size
    requires forall k :: 0 <= k < c.size ==> c.elements[k] == Some(s[k])
    ensures c.Items() == s
  {
  }

  /** The first occurrence of `v` removed; `s` itself when `v` does not occur. */
  function RemoveFirst<T(==)>(s: seq<T>, v: T): (r: seq<T>)
  {
    if |s| == 0 then []
    else if s[0] == v then s[1..]
    else [s[0]] + RemoveFirst(s[1..], v)
  }

  lemma {:induction false} RemoveFirstAt<T>(s: seq<T>, v: T, j: nat)
    requires j < |s| && s[j] == v && v !in s[..j]
    ensures RemoveFirst(s, v) == s[..j] + s[j + 1..]
    decreases j
  {
    if j > 0 {
      assert s[0] in s[..j];
      assert s[1..][..j - 1] == s[1..j];
      RemoveFirstAt(s[1..], v, j - 1);
      assert s[..j] == [s[0]] + s[1..][..j - 1];
    }
  }

  /** The constructor: a capacity below 1 is refused. */
  function New<T>(initialCapacity: int): (r: Result<ArrayIndexedCollection<T>, CollectionError>)
    ensures initialCapacity < 1 <==> r == Err(IllegalArgument)
    ensures r.Ok? ==> r.value.Valid() && r.value.Capacity() == initialCapacity && r.value.Items() == []
  {
    if initialCapacity < 1 then Err(IllegalArgument)
    else Ok(ArrayIndexedCollection(seq(initialCapacity, _ => None), 0))
  }

  /** A new backing array of twice the capacity holding the same values. */
  method DoubleUpCapacity<T>(c: ArrayIndexedCollection<T>) returns (d: ArrayIndexedCollection<T>)
    requires c.Valid()
    ensures d.Valid() && d.Capacity() == 2 * c.Capacity() && d.Items() == c.Items()
  {
    var grown: seq<Option<T>> := seq(2 * |c.elements|, _ => None);
    var i := 0;
    while i < c.size
      invariant 0 <= i <= c.size
      invariant |grown| == 2 * |c.elements|
      invariant forall k :: 0 <= k < |grown| ==> grown[k] == if k < i then c.elements[k] else None
    {
      grown := grown[i := c.elements[i]];
      i := i + 1;
    }
    d := ArrayIndexedCollection(grown, c.size);
    assert d.Items() == c.Items();
  }

  /** add: refuses null, grows a full array, and appends. */
  method Add<T>(c: ArrayIndexedCollection<T>, value: Option<T>) returns (r: Result<ArrayIndexedCollection<T>, CollectionError>)
    requires c.Valid()
    ensures r.Ok? <==> value.Some?
    ensures r.Err? ==> r.error == IllegalArgument
    ensures r.Ok? ==> r.value.Valid() && r.value.Items() == c.Items() + [value.value]
    ensures r.Ok? ==> r.value.Capacity() == if c.size == c.Capacity() then 2 * c.Capacity() else c.Capacity()
  {
    if value.None? {
      return Err(IllegalArgument);
    }
    var d := c;
    if c.size == |c.elements| {
      d := DoubleUpCapacity(c);
    }
    var e := ArrayIndexedCollection(d.elements[d.size := value], d.size + 1);
    assert e.Items() == d.Items() + [value.value];
    return Ok(e);
  }

  /** get: the value at `index`, or IndexOutOfBounds outside 0..size-1. */
  function Get<T>(c: ArrayIndexedCollection<T>, index: int): (r: Result<T, CollectionError>)
    requires c.Valid()
    ensures r.Ok? <==> 0 <= index < c.size
    ensures r.Ok? ==> r.value == c.Items()[index]
    ensures r.Err? ==> r.error == IndexOutOfBounds
  {
    if index < 0 || index > c.size - 1 then Err(IndexOutOfBounds) else Ok(c.elements[index].value)
  }

  /** clear: nulls the occupied slots and keeps the capacity. */
  method Clear<T>(c: ArrayIndexedCollection<T>) returns (d: ArrayIndexedCollection<T>)
    requires c.Valid()
    ensures d.Valid() && d.Items() == [] && d.Capacity() == c.Capacity()
  {
    var es := c.elements;
    var i := 0;
    while i < c.size
      invariant 0 <= i <= c.size
      invariant |es| == |c.elements|
      invariant forall k :: 0 <= k < |es| ==> (es[k].Some? <==> i <= k < c.size)
    {
      es := es[i := None];
      i := i + 1;
    }
    d := ArrayIndexedCollection(es, 0);
  }

  /** insert: refuses null and positions outside 0..size, grows a full array, then
      shifts the tail one slot right and stores the value at `position`. */
  method Insert<T>(c: ArrayIndexedCollection<T>, value: Option<T>, position: int)
    returns (r: Result<ArrayIndexedCollection<T>, CollectionError>)
    requires c.Valid()
    ensures value.None? ==> r == Err(IllegalArgument)
    ensures value.Some? && !(0 <= position <= c.size) ==> r == Err(IndexOutOfBounds)
    ensures value.Some? && 0 <= position <= c.size ==>
      r.Ok? && r.value.Valid() && r.value.Items() == c.Items()[..position] + [value.value] + c.Items()[position..]
  {
    if value.None? {
      return Err(IllegalArgument);
    }
    if position < 0 || position > c.size {
      return Err(IndexOutOfBounds);
    }
    var d := c;
    if d.size == |d.elements| {
      d := DoubleUpCapacity(d);
    }
    if position == d.size {
      r := Add(d, value);
      assert c.Items()[position..] == [];
      return;
    }
    var e := ShiftRightAndStore(d, value.value, position);
    InsertedItems(d, e, value.value, position);
    return Ok(e);
  }

  /** The loop of insert: moves the slots position..size-1 one place right, then
      stores `v` at `position`. */
  method ShiftRightAndStore<T>(d: ArrayIndexedCollection<T>, v: T, position: nat) returns (e: ArrayIndexedCollection<T>)
    requires d.Valid() && position < d.size < d.Capacity()
    ensures e.Valid() && e.size == d.size + 1 && e.Capacity() == d.Capacity()
    ensures forall k :: 0 <= k < position ==> e.elements[k] == d.elements[k]
    ensures e.elements[position] == Some(v)
    ensures forall k :: position < k < e.size ==> e.elements[k] == d.elements[k - 1]
  {
    var es := d.elements;
    var i := d.size;
    while i > position
      invariant position <= i <= d.size
      invariant |es| == |d.elements|
      invariant forall k :: 0 <= k <= i ==> es[k] == d.elements[k]
      invariant forall k :: i < k <= d.size ==> es[k] == d.elements[k - 1]
      invariant forall k :: d.size < k < |es| ==> es[k] == d.elements[k]
    {
      es := es[i := es[i - 1]];
      i := i - 1;
    }
    e := ArrayIndexedCollection(es[position := Some(v)], d.size + 1);
  }

  lemma InsertedItems<T>(d: ArrayIndexedCollection<T>, e: ArrayIndexedCollection<T>, v: T, position: nat)
    requires d.Valid() && e.Valid() && position <= d.size && e.size == d.size + 1
    requires forall k :: 0 <= k < position ==> e.elements[k] == d.elements[k]
    requires e.elements[position] == Some(v)
    requires forall k :: position < k < e.size ==> e.elements[k] == d.elements[k - 1]
    ensures e.Items() == d.Items()[..position] + [v] + d.Items()[position..]
  {
    ghost var s := d.Items()[..position] + [v] + d.Items()[position..];
    forall k | 0 <= k < e.size
      ensures e.elements[k] == Some(s[k])
    {
      if k < position {
        assert s[k] == d.Items()[k];
      } else if k > position {
        assert s[k] == d.Items()[k - 1];
      }
    }
    ItemsAre(e, s);
  }

  /** indexOf: the first position holding a value equal to `value`; -1 for null or
      when no stored value is equal. */
  method IndexOf<T(==)>(c: ArrayIndexedCollection<T>, value: Option<T>) returns (r: int)
    requires c.Valid()
    ensures -1 <= r < c.size
    ensures r == -1 <==> value.None? || value.value !in c.Items()
    ensures r >= 0 ==> value == Some(c.Items()[r]) && value.value !in c.Items()[..r]
  {
    if value.None? {
      return -1;
    }
    var i := 0;
    while i < c.size
      invariant 0 <= i <= c.size
      invariant value.value !in c.Items()[..i]
    {
      if c.elements[i] == value {
        return i;
      }
      assert c.Items()[..i + 1] == c.Items()[..i] + [c.Items()[i]];
      i := i + 1;
    }
    assert c.Items()[..i] == c.Items();
    return -1;
  }

  /** contains: whether some stored value equals `value`. */
  method Contains<T(==)>(c: ArrayIndexedCollection<T>, value: Option<T>) returns (b: bool)
    requires c.Valid()
    ensures b <==> value.Some? && value.value in c.Items()
  {
    var k := IndexOf(c, value);
    b := k != -1;
  }

  /** remove(int) as written. The shift loop copies `elements[i + 1]` into slot `i`
      for every `i` up to `size - 1`, so its last read is the slot just past the
      stored values. When the collection is full that slot is outside the array:
      the read fails after the earlier slots have been shifted, and `size` is left
      as it was. */
  method RemoveAt<T>(c: ArrayIndexedCollection<T>, index: int)
    returns (d: ArrayIndexedCollection<T>, r: Result<(), CollectionError>)
    requires c.Valid()
    ensures !(0 <= index < c.size) ==> d == c && r == Err(IndexOutOfBounds)
    ensures 0 <= index < c.size < c.Capacity() ==>
      r.Ok? && d.Valid() && d.Capacity() == c.Capacity() && d.Items() == c.Items()[..index] + c.Items()[index + 1..]
    ensures 0 <= index < c.size == c.Capacity() ==>
      r == Err(ArrayIndexOutOfBounds) && d.Valid()
      && d.Items() == c.Items()[..index] + c.Items()[index + 1..] + [c.Items()[c.size - 1]]
  {
    if index < 0 || index > c.size - 1 {
      return c, Err(IndexOutOfBounds);
    }
    var es := c.elements;
    var i := index;
    while i < c.size
      invariant index <= i <= c.size
      invariant |es| == |c.elements|
      invariant index < i ==> i < |es|
      invariant forall k :: index <= k < i ==> es[k] == c.elements[k + 1]
      invariant forall k :: 0 <= k < |es| && !(index <= k < i) ==> es[k] == c.elements[k]
    {
      if i + 1 >= |es| {
        d := ArrayIndexedCollection(es, c.size);
        assert d.Valid();
        OverrunItems(c, d, index);
        return d, Err(ArrayIndexOutOfBounds);
      }
      es := es[i := es[i + 1]];
      i := i + 1;
    }
    d := ArrayIndexedCollection(es, c.size - 1);
    assert d.Valid();
    ShiftedItems(c, d, index);
    r := Ok(());
  }

  /** A shift that stopped one slot short: the last value is still in place. */
  lemma OverrunItems<T>(c: ArrayIndexedCollection<T>, d: ArrayIndexedCollection<T>, index: nat)
    requires c.Valid() && d.Valid() && index < c.size && d.size == c.size
    requires forall k :: 0 <= k < index ==> d.elements[k] == c.elements[k]
    requires forall k :: index <= k < d.size - 1 ==> d.elements[k] == c.elements[k + 1]
    requires d.elements[d.size - 1] == c.elements[c.size - 1]
    ensures d.Items() == c.Items()[..index] + c.Items()[index + 1..] + [c.Items()[c.size - 1]]
  {
    ghost var s := c.Items()[..index] + c.Items()[index + 1..] + [c.Items()[c.size - 1]];
    forall k | 0 <= k < d.size
      ensures d.elements[k] == Some(s[k])
    {
      if k < index {
        assert s[k] == c.Items()[k];
      } else if k < c.size - 1 {
        assert s[k] == c.Items()[k + 1];
      }
    }
    ItemsAre(d, s);
  }

  /** The slots after a completed left shift from `index` hold the items without
      the one at `index`. */
  lemma ShiftedItems<T>(c: ArrayIndexedCollection<T>, d: ArrayIndexedCollection<T>, index: nat)
    requires c.Valid() && d.Valid() && index < c.size && d.size == c.size - 1
    requires forall k :: 0 <= k < index ==> d.elements[k] == c.elements[k]
    requires forall k :: index <= k < d.size ==> d.elements[k] == c.elements[k + 1]
    ensures d.Items() == c.Items()[..index] + c.Items()[index + 1..]
  {
    ghost var s := c.Items()[..index] + c.Items()[index + 1..];
    forall k | 0 <= k < d.size
      ensures d.elements[k] == Some(s[k])
    {
      if k < index {
        assert s[k] == c.Items()[k];
      } else {
        assert s[k] == c.Items()[k + 1];
      }
    }
    ItemsAre(d, s);
  }

  /** remove(int) as evidently intended: the shift stops at the last stored value
      and the vacated slot is nulled, so a full collection is handled too. */
  method RemoveAtFixed<T>(c: ArrayIndexedCollection<T>, index: int)
    returns (d: ArrayIndexedCollection<T>, r: Result<(), CollectionError>)
    requires c.Valid()
    ensures !(0 <= index < c.size) ==> d == c && r == Err(IndexOutOfBounds)
    ensures 0 <= index < c.size ==>
      r.Ok? && d.Valid() && d.Capacity() == c.Capacity() && d.Items() == c.Items()[..index] + c.Items()[index + 1..]
  {
    if index < 0 || index > c.size - 1 {
      return c, Err(IndexOutOfBounds);
    }
    var es := c.elements;
    var i := index;
    while i < c.size - 1
      invariant index <= i <= c.size - 1
      invariant |es| == |c.elements|
      invariant forall k :: index <= k < i ==> es[k] == c.elements[k + 1]
      invariant forall k :: 0 <= k < |es| && !(index <= k < i) ==> es[k] == c.elements[k]
    {
      es := es[i := es[i + 1]];
      i := i + 1;
    }
    d := ArrayIndexedCollection(es[c.size - 1 := None], c.size - 1);
    assert d.Valid();
    ShiftedItems(c, d, index);
    r := Ok(());
  }

  /** remove(Object) as written: false and no change when the value is absent,
      otherwise remove(indexOf(value)), which fails on a full collection. */
  method RemoveValue<T(==)>(c: ArrayIndexedCollection<T>, value: Option<T>)
    returns (d: ArrayIndexedCollection<T>, r: Result<bool, CollectionError>)
    requires c.Valid()
    ensures value.None? || value.value !in c.Items() ==> d == c && r == Ok(false)
    ensures value.Some? && value.value in c.Items() && c.size < c.Capacity() ==>
      r == Ok(true) && d.Valid() && d.Items() == RemoveFirst(c.Items(), value.value)
    ensures value.Some? && value.value in c.Items() && c.size == c.Capacity() ==>
      r == Err(ArrayIndexOutOfBounds) && d.Valid() &&
      d.Items() == RemoveFirst(c.Items(), value.value) + [c.Items()[c.size - 1]]
  {
    var present := Contains(c, value);
    if !present {
      return c, Ok(false);
    }
    var k := IndexOf(c, value);
    RemoveFirstAt(c.Items(), value.value, k);
    var done;
    d, done := RemoveAt(c, k);
    r := if done.Ok? then Ok(true) else Err(done.error);
  }

  /** remove(Object) over the corrected remove(int). */
  method RemoveValueFixed<T(==)>(c: ArrayIndexedCollection<T>, value: Option<T>)
    returns (d: ArrayIndexedCollection<T>, removed: bool)
    requires c.Valid()
    ensures d.Valid() && d.Capacity() == c.Capacity()
    ensures removed <==> value.Some? && value.value in c.Items()
    ensures removed ==> d.Items() == RemoveFirst(c.Items(), value.value)
    ensures !removed ==> d == c
  {
    var present := Contains(c, value);
    if !present {
      return c, false;
    }
    var k := IndexOf(c, value);
    RemoveFirstAt(c.Items(), value.value, k);
    var done;
    d, done := RemoveAtFixed(c, k);
    removed := true;
  }

  /** toArray: a fresh array of exactly the stored values. */
  method ToArray<T>(c: ArrayIndexedCollection<T>) returns (a: seq<T>)
    requires c.Valid()
    ensures a == c.Items()
  {
    a := [];
    var i := 0;
    while i < c.size
      invariant 0 <= i <= c.size
      invariant a == c.Items()[..i]
    {
      a := a + [c.elements[i].value];
      i := i + 1;
    }
  }

  // ---------------------------------------------------------------------------
  // Collection: the base class's defaults, and dispatch to the one subclass

  /** A Collection is either a subclass that overrides nothing (`Base`) or an
      ArrayIndexedCollection. */
  datatype Collection<T> = Base | Indexed(c: ArrayIndexedCollection<T>) {
    predicate Valid() {
      Indexed? ==> c.Valid()
    }
  }

  /** The values forEach hands to its processor, in order: none for the base class. */
  function ForEachOrder<T>(coll: Collection<T>): (r: seq<T>)
    requires coll.Valid()
  {
    match coll
    case Base => []
    case Indexed(c) => c.Items()
  }

  function Size<T>(coll: Collection<T>): (n: nat)
    requires coll.Valid()
    ensures n == |ForEachOrder(coll)|
  {
    match coll
    case Base => 0
    case Indexed(c) => c.size
  }

  /** isEmpty is `size() == 0` for every collection. */
  predicate IsEmpty<T>(coll: Collection<T>)
    requires coll.Valid()
    ensures IsEmpty(coll) <==> ForEachOrder(coll) == []
  {
    Size(coll) == 0
  }

  /** toArray: unsupported in the base class. */
  method CollectionToArray<T>(coll: Collection<T>) returns (r: Result<seq<T>, CollectionError>)
    requires coll.Valid()
    ensures coll.Base? <==> r == Err(UnsupportedOperation)
    ensures r.Ok? ==> r.value == ForEachOrder(coll)
  {
    match coll
    case Base => r := Err(UnsupportedOperation);
    case Indexed(c) => var a := ToArray(c); r := Ok(a);
  }

  /** contains: always false in the base class. */
  method CollectionContains<T(==)>(coll: Collection<T>, value: Option<T>) returns (b: bool)
    requires coll.Valid()
    ensures b <==> value.Some? && value.value in ForEachOrder(coll)
  {
    match coll
    case Base => b := false;
    case Indexed(c) => b := Contains(c, value);
  }

  /** remove(Object): always false in the base class. */
  method CollectionRemove<T(==)>(coll: Collection<T>, value: Option<T>)
    returns (d: Collection<T>, r: Result<bool, CollectionError>)
    requires coll.Valid()
    ensures coll.Base? ==> d == coll && r == Ok(false)
    ensures r == Ok(true) ==> value.Some? && value.value in ForEachOrder(coll)
    ensures r == Ok(false) ==> d == coll && (value.None? || value.value !in ForEachOrder(coll))
  {
    match coll
    case Base =>
      d, r := Base, Ok(false);
    case Indexed(c) =>
      var e;
      e, r := RemoveValue(c, value);
      d := Indexed(e);
  }

  /** add: does nothing in the base class. */
  method CollectionAdd<T>(coll: Collection<T>, value: Option<T>) returns (r: Result<Collection<T>, CollectionError>)
    requires coll.Valid()
    ensures coll.Base? ==> r == Ok(Base)
    ensures r.Ok? <==> coll.Base? || value.Some?
    ensures r.Err? ==> r.error == IllegalArgument
    ensures r.Ok? ==> r.value.Valid() && r.value.Indexed? == coll.Indexed?
    ensures r.Ok? && coll.Indexed? ==> ForEachOrder(r.value) == ForEachOrder(coll) + [value.value]
  {
    match coll
    case Base =>
      r := Ok(Base);
    case Indexed(c) =>
      var a := Add(c, value);
      r := if a.Ok? then Ok(Indexed(a.value)) else Err(a.error);
  }

  /** addAll: hands every value of `other`, in forEach order, to this collection's
      add. `other` is a separate value and stays as it was. */
  method AddAll<T>(coll: Collection<T>, other: Collection<T>) returns (d: Collection<T>)
    requires coll.Valid() && other.Valid()
    ensures d.Valid() && d.Indexed? == coll.Indexed?
    ensures coll.Base? ==> d == Base
    ensures coll.Indexed? ==> ForEachOrder(d) == ForEachOrder(coll) + ForEachOrder(other)
  {
    var vs := ForEachOrder(other);
    var us := ForEachOrder(coll);
    d := coll;
    var i := 0;
    while i < |vs|
      invariant 0 <= i <= |vs|
      invariant d.Valid() && d.Indexed? == coll.Indexed?
      invariant coll.Base? ==> d == Base
      invariant coll.Indexed? ==> ForEachOrder(d) == us + vs[..i]
    {
      var a := CollectionAdd(d, Some(vs[i]));
      d := a.value;
      assert us + vs[..i + 1] == (us + vs[..i]) + [vs[i]] by {
        assert vs[..i + 1] == vs[..i] + [vs[i]];
      }
      i := i + 1;
    }
    assert vs[..i] == vs;
  }

  /** The constructor taking a collection to copy: a capacity below 1 is refused,
      otherwise every value of `other` (none for null) is added in order. */
  method NewFrom<T>(initialCapacity: int, other: Option<Collection<T>>) returns (r: Result<ArrayIndexedCollection<T>, CollectionError>)
    requires other.Some? ==> other.value.Valid()
    ensures initialCapacity < 1 <==> r == Err(IllegalArgument)
    ensures r.Ok? ==> r.value.Valid() && r.value.Items() == (if other.Some? then ForEachOrder(other.value) else [])
  {
    var e := New<T>(initialCapacity);
    if e.Err? {
      return e;
    }
    if other.None? {
      return e;
    }
    var d := AddAll(Indexed(e.value), other.value);
    r := Ok(d.c);
  }

  // ---------------------------------------------------------------------------
  // ObjectStack: a stack on an ArrayIndexedCollection of default capacity

  datatype ObjectStack<T> = ObjectStack(collection: ArrayIndexedCollection<T>) {
    predicate Valid() {
      collection.Valid()
    }

    /** The stacked values, bottom first. */
    function Items(): seq<T>
      requires Valid()
    {
      collection.Items()
    }
  }

  function NewStack<T>(): (s: ObjectStack<T>)
    ensures s.Valid() && s.Items() == [] && s.collection.Capacity() == DefaultCapacity
  {
    ObjectStack(New(DefaultCapacity).value)
  }

  function StackSize<T>(s: ObjectStack<T>): (n: nat)
    requires s.Valid()
    ensures n == |s.Items()|
  {
    s.collection.size
  }

  predicate StackIsEmpty<T>(s: ObjectStack<T>)
    requires s.Valid()
    ensures StackIsEmpty(s) <==> s.Items() == []
  {
    IsEmpty(Indexed(s.collection))
  }

  /** push: the collection's add, so null is refused. */
  method Push<T>(s: ObjectStack<T>, value: Option<T>) returns (r: Result<ObjectStack<T>, CollectionError>)
    requires s.Valid()
    ensures r.Ok? <==> value.Some?
    ensures r.Err? ==> r.error == IllegalArgument
    ensures r.Ok? ==> r.value.Valid() && r.value.Items() == s.Items() + [value.value]
    ensures r.Ok? ==> r.value.collection.Capacity() == (if s.collection.size == s.collection.Capacity() then 2 * s.collection.Capacity() else s.collection.Capacity())
  {
    var a := Add(s.collection, value);
    r := if a.Ok? then Ok(ObjectStack(a.value)) else Err(a.error);
  }

  /** peek: the top value, or EmptyStack. */
  function Peek<T>(s: ObjectStack<T>): (r: Result<T, CollectionError>)
    requires s.Valid()
    ensures s.Items() == [] <==> r == Err(EmptyStack)
    ensures r.Ok? ==> r.value == s.Items()[|s.Items()| - 1]
  {
    if s.collection.size == 0 then Err(EmptyStack)
    else Get(s.collection, s.collection.size - 1)
  }

  /** pop as written: get then remove(size - 1). On a full backing array the
      removal reads past its end, so the pop fails and the stack keeps its top. */
  method Pop<T>(s: ObjectStack<T>) returns (t: ObjectStack<T>, r: Result<T, CollectionError>)
    requires s.Valid()
    ensures s.Items() == [] ==> r == Err(EmptyStack) && t == s
    ensures 0 < s.collection.size < s.collection.Capacity() ==>
      t.Valid() && r == Ok(s.Items()[|s.Items()| - 1]) && t.Items() == s.Items()[..|s.Items()| - 1]
    ensures 0 < s.collection.size == s.collection.Capacity() ==>
      r == Err(ArrayIndexOutOfBounds) && t.Valid() && t.Items() == s.Items()
  {
    var c := s.collection;
    if c.size == 0 {
      return s, Err(EmptyStack);
    }
    var top := Get(c, c.size - 1);
    var d, done := RemoveAt(c, c.size - 1);
    t := ObjectStack(d);
    r := if done.Ok? then top else Err(done.error);
    assert c.Items()[..c.size - 1] + c.Items()[c.size..] == c.Items()[..c.size - 1];
  }

  /** pop over the corrected remove(int). */
  method PopFixed<T>(s: ObjectStack<T>) returns (t: ObjectStack<T>, r: Result<T, CollectionError>)
    requires s.Valid()
    ensures t.Valid()
    ensures r.Ok? <==> s.Items() != []
    ensures r.Err? ==> r.error == EmptyStack && t == s
    ensures r.Ok? ==> r.value == s.Items()[|s.Items()| - 1] && t.Items() == s.Items()[..|s.Items()| - 1]
  {
    var c := s.collection;
    if c.size == 0 {
      return s, Err(EmptyStack);
    }
    var top := Get(c, c.size - 1);
    var d, done := RemoveAtFixed(c, c.size - 1);
    t := ObjectStack(d);
    r := top;
    assert c.Items()[..c.size - 1] + c.Items()[c.size..] == c.Items()[..c.size - 1];
  }

  /** clear: the stack is empty afterwards. */
  method StackClear<T>(s: ObjectStack<T>) returns (t: ObjectStack<T>)
    requires s.Valid()
    ensures t.Valid() && t.Items() == []
  {
    var d := Clear(s.collection);
    t := ObjectStack(d);
  }

  /** With the corrected pop, a push followed by a pop gives back the pushed value
      and the stack as it was. */
  method PushThenPop<T>(s: ObjectStack<T>, v: T) returns (t: ObjectStack<T>, r: Result<T, CollectionError>)
    requires s.Valid()
    ensures r == Ok(v) && t.Valid() && t.Items() == s.Items()
  {
    var p := Push(s, Some(v));
    t, r := PopFixed(p.value);
    assert (s.Items() + [v])[..|s.Items()|] == s.Items();
  }

  /** Sixteen pushes onto a new stack fill its backing array exactly, and the pop
      that follows fails as written although the stack is not empty. */
  method SixteenPushesThenPop() returns (r: Result<int, CollectionError>)
    ensures r == Err(ArrayIndexOutOfBounds)
  {
    var s: ObjectStack<int> := NewStack();
    var i := 0;
    while i < 16
      invariant 0 <= i <= 16
      invariant s.Valid() && s.collection.Capacity() == 16 && s.collection.size == i
    {
      var p := Push(s, Some(i));
      s := p.value;
      i := i + 1;
    }
    var t;
    t, r := Pop(s);
  }
}
