/** A map from names to stacks of values. A stack exists in the map only while
    it holds at least one value; pushing onto a missing name starts a new
    stack and popping the last value removes the name. Each stack is kept
    bottom first, so its top is its last element, as in the linked chain the
    source walks from the bottom entry to the top one. */
module Multistacks {
  import opened Wrappers

  datatype StackError =
    | IllegalArgument  // a null name
    | EmptyStack       // nothing stored under the name

  type Multistack<T> = map<string, seq<T>>

  /** No stack in the map is empty. */
  predicate Valid<T>(m: Multistack<T>) {
    forall k :: k in m ==> |m[k]| > 0
  }

  /** The stack under `name`, empty when the name is absent. */
  function StackOf<T>(m: Multistack<T>, name: string): seq<T> {
    if name in m then m[name] else []
  }

  /** push: the value goes on top of the stack called `name`; a null name is
      refused. */
  function Push<T>(m: Multistack<T>, name: Option<string>, v: T): (r: Result<Multistack<T>, StackError>)
    ensures r.Err? <==> name.None?
    ensures r.Err? ==> r.error == IllegalArgument
    ensures r.Ok? ==> StackOf(r.value, name.value) == StackOf(m, name.value) + [v]
    ensures r.Ok? ==> r.value.Keys == m.Keys + {name.value}
    ensures r.Ok? ==> forall k :: k in m && k != name.value ==> r.value[k] == m[k]
    ensures r.Ok? && Valid(m) ==> Valid(r.value)
  {
    match name
    case None => Err(IllegalArgument)
    case Some(n) => Ok(m[n := StackOf(m, n) + [v]])
  }

  /** pop: removes and returns the top of the stack called `name`; the name
      disappears with its last value. */
  function Pop<T>(m: Multistack<T>, name: Option<string>): (r: Result<(T, Multistack<T>), StackError>)
    ensures name.None? ==> r == Err(IllegalArgument)
    ensures name.Some? ==> (r.Ok? <==> |StackOf(m, name.value)| > 0)
    ensures r.Err? && name.Some? ==> r.error == EmptyStack
    ensures r.Ok? ==> StackOf(m, name.value) == StackOf(r.value.1, name.value) + [r.value.0]
    ensures r.Ok? ==> forall k :: k != name.value ==> StackOf(r.value.1, k) == StackOf(m, k)
    ensures r.Ok? && Valid(m) ==> Valid(r.value.1) && r.value.1.Keys <= m.Keys
  {
    match name
    case None => Err(IllegalArgument)
    case Some(n) =>
      var s := StackOf(m, n);
      if |s| == 0 then Err(EmptyStack)
      else if |s| == 1 then Ok((s[0], m - {n}))
      else Ok((s[|s| - 1], m[n := s[..|s| - 1]]))
  }

  /** peek: the top of the stack called `name`, left in place. */
  function Peek<T>(m: Multistack<T>, name: Option<string>): (r: Result<T, StackError>)
    ensures name.None? ==> r == Err(IllegalArgument)
    ensures name.Some? ==> (r.Ok? <==> |StackOf(m, name.value)| > 0)
    ensures r.Err? && name.Some? ==> r.error == EmptyStack
    ensures r.Ok? ==> r.value == Last(StackOf(m, name.value))
  {
    match name
    case None => Err(IllegalArgument)
    case Some(n) =>
      var s := StackOf(m, n);
      if |s| == 0 then Err(EmptyStack) else Ok(s[|s| - 1])
  }

  /** isEmpty: whether nothing is stored under `name`; a null name is refused. */
  function IsEmpty<T>(m: Multistack<T>, name: Option<string>): (r: Result<bool, StackError>)
    ensures name.None? <==> r == Err(IllegalArgument)
    ensures r.Ok? && Valid(m) ==> (r.value <==> name.value !in m)
    ensures r.Ok? ==> (r.value <==> Peek(m, name).Err?)
  {
    match name
    case None => Err(IllegalArgument)
    case Some(n) => Ok(|StackOf(m, n)| == 0)
  }

  /** The value `peek` hands out is shared with the stack, so updating it
      updates the top in place: the top of `name` becomes `v`. */
  function ReplaceTop<T>(m: Multistack<T>, name: string, v: T): (r: Result<Multistack<T>, StackError>)
    ensures r.Ok? <==> |StackOf(m, name)| > 0
    ensures r.Err? ==> r.error == EmptyStack
    ensures r.Ok? ==> Peek(r.value, Some(name)) == Ok(v)
    ensures r.Ok? ==> |StackOf(r.value, name)| == |StackOf(m, name)|
    ensures r.Ok? ==> StackOf(r.value, name)[..|StackOf(m, name)| - 1] == StackOf(m, name)[..|StackOf(m, name)| - 1]
    ensures r.Ok? ==> forall k :: k != name ==> StackOf(r.value, k) == StackOf(m, k)
    ensures r.Ok? && Valid(m) ==> Valid(r.value) && r.value.Keys == m.Keys
  {
    var s := StackOf(m, name);
    if |s| == 0 then Err(EmptyStack) else Ok(m[name := s[..|s| - 1] + [v]])
  }

  function Last<T>(s: seq<T>): T
    requires |s| > 0
  {
    s[|s| - 1]
  }

  // ---------------------------------------------------------------------------
  // Walking the chain

  /** The walk push and peek make: from the bottom entry follow the links
      until the entry with no successor, the top. */
  method WalkToTop<T>(chain: seq<T>) returns (top: T, steps: nat)
    requires |chain| > 0
    ensures top == chain[|chain| - 1]
    ensures steps == |chain| - 1
  {
    var i := 0;
    while i + 1 < |chain|
      invariant 0 <= i < |chain|
      decreases |chain| - i
    {
      i := i + 1;
    }
    top, steps := chain[i], i;
  }

  /** The walk pop makes on a chain of two or more: stop at the entry whose
      successor has no successor, and cut the link after it. What is left is
      the chain without its top. */
  method CutTop<T>(chain: seq<T>) returns (top: T, rest: seq<T>)
    requires |chain| >= 2
    ensures chain == rest + [top]
  {
    var i := 0;
    while i + 2 < |chain|
      invariant 0 <= i <= |chain| - 2
      decreases |chain| - i
    {
      i := i + 1;
    }
    top := chain[i + 1];
    rest := chain[..i + 1];
  }

  /** push as the source does it on the linked chain: a missing name gets a
      one-entry chain, otherwise the walk finds the top and links the new
      entry after it. */
  method ChainPush<T>(m: Multistack<T>, name: Option<string>, v: T) returns (r: Result<Multistack<T>, StackError>)
    ensures r == Push(m, name, v)
  {
    match name
    case None =>
      r := Err(IllegalArgument);
    case Some(n) =>
      if n !in m || |m[n]| == 0 {
        assert StackOf(m, n) + [v] == [v];
        r := Ok(m[n := [v]]);
      } else {
        var chain := m[n];
        var top, steps := WalkToTop(chain);
        assert chain[..steps] + [top] == chain;
        r := Ok(m[n := chain[..steps] + [top] + [v]]);
      }
  }

  /** peek as the source does it: walk the chain to its top. */
  method ChainPeek<T>(m: Multistack<T>, name: Option<string>) returns (r: Result<T, StackError>)
    ensures r == Peek(m, name)
  {
    match name
    case None =>
      r := Err(IllegalArgument);
    case Some(n) =>
      if n !in m || |m[n]| == 0 {
        r := Err(EmptyStack);
      } else {
        var top, _ := WalkToTop(m[n]);
        r := Ok(top);
      }
  }

  /** pop as the source does it: a one-entry chain leaves the map, a longer
      one loses the entry after the next-to-last. */
  method ChainPop<T>(m: Multistack<T>, name: Option<string>) returns (r: Result<(T, Multistack<T>), StackError>)
    ensures r == Pop(m, name)
  {
    match name
    case None =>
      r := Err(IllegalArgument);
    case Some(n) =>
      if n !in m || |m[n]| == 0 {
        r := Err(EmptyStack);
      } else if |m[n]| == 1 {
        r := Ok((m[n][0], m - {n}));
      } else {
        var top, rest := CutTop(m[n]);
        r := Ok((top, m[n := rest]));
      }
  }

  // ---------------------------------------------------------------------------
  // Properties

  /** What was just pushed is what peek sees. */
  lemma PushPeek<T>(m: Multistack<T>, name: string, v: T)
    ensures Push(m, Some(name), v).Ok?
    ensures Peek(Push(m, Some(name), v).value, Some(name)) == Ok(v)
  {
  }

  /** Popping right after a push returns the pushed value and exactly the map
      that was there before. */
  lemma PushPop<T>(m: Multistack<T>, name: string, v: T)
    requires Valid(m)
    ensures Push(m, Some(name), v).Ok?
    ensures Pop(Push(m, Some(name), v).value, Some(name)) == Ok((v, m))
  {
    var m' := Push(m, Some(name), v).value;
    var s := StackOf(m, name);
    assert (s + [v])[..|s|] == s;
    if name in m {
      assert m'[name := s] == m;
    } else {
      assert m' - {name} == m;
    }
  }

  /** Pushing back what was just popped restores the map. */
  lemma PopPush<T>(m: Multistack<T>, name: string)
    requires Valid(m)
    requires Pop(m, Some(name)).Ok?
    ensures Push(Pop(m, Some(name)).value.1, Some(name), Pop(m, Some(name)).value.0) == Ok(m)
  {
    var (v, m') := Pop(m, Some(name)).value;
    var s := m[name];
    if |s| == 1 {
      assert [v] == s;
      assert (m - {name})[name := [v]] == m;
    } else {
      assert s[..|s| - 1] + [v] == s;
      assert m'[name := s] == m;
    }
  }

  /** A stack holding one value is empty again once that value is popped. */
  lemma PopLastEmpties<T>(m: Multistack<T>, name: string, v: T)
    requires name !in m
    ensures Push(m, Some(name), v).Ok?
    ensures Pop(Push(m, Some(name), v).value, Some(name)).Ok?
    ensures IsEmpty(Pop(Push(m, Some(name), v).value, Some(name)).value.1, Some(name)) == Ok(true)
  {
  }

  /** Pushing `v` and then overwriting the top with `w` is pushing `w`. */
  lemma PushReplace<T>(m: Multistack<T>, name: string, v: T, w: T)
    ensures Push(m, Some(name), v).Ok?
    ensures ReplaceTop(Push(m, Some(name), v).value, name, w) == Push(m, Some(name), w)
  {
    var s := StackOf(m, name);
    assert (s + [v])[..|s|] == s;
    assert m[name := s + [v]][name := s + [w]] == m[name := s + [w]];
  }
}
