/** The one-slot pushback iterator over a list of lines, `IteratorWithPushback`
    of the `lib.helper` module, as its test and its one caller use it. */
module Pushback {
  import opened Wrappers

  class IteratorWithPushback {
    /** The list the iterator was built over. */
    const items: seq<string>
    /** Index of the next item of `items` to hand out. */
    var pos: nat
    /** A pushed-back item, handed out before `items[pos]`. */
    var slot: Option<string>

    /** Every item handed out so far, in order. */
    ghost var observed: seq<string>
    /** How many items were pushed back so far. */
    ghost var pushes: nat

    ghost predicate Valid()
      reads this
    {
      pos <= |items| && |observed| + |Remaining()| == |items| + pushes
    }

    /** What `next()` will hand out from now on, in order. */
    function Remaining(): seq<string>
      reads this
    {
      (if slot.Some? then [slot.value] else []) + (if pos <= |items| then items[pos..] else [])
    }

    constructor (items: seq<string>)
      ensures Valid() && this.items == items
      ensures Remaining() == items && slot.None?
      ensures observed == [] && pushes == 0
    {
      this.items := items;
      pos := 0;
      slot := None;
      observed := [];
      pushes := 0;
    }

    /** `next(it)`: the next item, or `None` where Python raises StopIteration. */
    method Next() returns (r: Option<string>)
      requires Valid()
      modifies this
      ensures Valid() && slot.None? && pushes == old(pushes)
      ensures old(Remaining()) == [] ==> r.None? && Remaining() == [] && observed == old(observed)
      ensures old(Remaining()) != [] ==>
        r == Some(old(Remaining())[0]) && Remaining() == old(Remaining())[1..] &&
        observed == old(observed) + [r.value]
    {
      if slot.Some? {
        r := slot;
        slot := None;
      } else if pos < |items| {
        r := Some(items[pos]);
        pos := pos + 1;
      } else {
        r := None;
      }
      if r.Some? {
        observed := observed + [r.value];
      }
    }

    /** `it.push_back(x)`: the next `Next()` hands out `x`. The one caller
        pushes back only right after a `Next()`, when the slot is free. */
    method PushBack(x: string)
      requires Valid() && slot.None?
      modifies this
      ensures Valid() && Remaining() == [x] + old(Remaining())
      ensures observed == old(observed) && pushes == old(pushes) + 1
    {
      slot := Some(x);
      pushes := pushes + 1;
    }
  }

  /** What `test_iter1` collects from `items`: each item once, and every
      "c" a second time, right after itself. */
  function ExpectedTrace(items: seq<string>): seq<string> {
    if items == [] then [] else Chunk(items[0]) + ExpectedTrace(items[1..])
  }

  function Chunk(x: string): seq<string> {
    if x == "c" then [x, x] else [x]
  }

  lemma TraceStep(before: seq<string>, rem: seq<string>)
    requires rem != []
    ensures before + ExpectedTrace(rem) == (before + Chunk(rem[0])) + ExpectedTrace(rem[1..])
  {
  }

  lemma ExpectedTraceOfTestList()
    ensures ExpectedTrace(["a", "bb", "c", "ddd", "ee"]) == ["a", "bb", "c", "c", "ddd", "ee"]
  {
    var l := ["a", "bb", "c", "ddd", "ee"];
    assert "a" != "c" && "bb" != "c" && "ddd" != "c" && "ee" != "c";
    assert l[1..] == ["bb", "c", "ddd", "ee"];
    assert l[1..][1..] == ["c", "ddd", "ee"];
    assert l[1..][1..][1..] == ["ddd", "ee"];
    assert l[1..][1..][1..][1..] == ["ee"];
  }

  /** The loop of `test_iter1`: read every item, and on "c" push it back
      and read it again. */
  method ReadRepeatingC(items: seq<string>) returns (result: seq<string>)
    ensures result == ExpectedTrace(items)
  {
    var it := new IteratorWithPushback(items);
    result := [];
    var done := false;
    while !done
      invariant it.Valid() && it.slot.None?
      invariant done ==> it.Remaining() == []
      invariant result + ExpectedTrace(it.Remaining()) == ExpectedTrace(items)
      decreases |it.Remaining()|, !done
    {
      ghost var rem := it.Remaining();
      var got;
      done, got := ReadOnce(it);
      if !done {
        TraceStep(result, rem);
        result := result + got;
      }
    }
    assert result + [] == result;
  }

  /** One pass of that loop: what it adds to the result. */
  method ReadOnce(it: IteratorWithPushback) returns (done: bool, got: seq<string>)
    requires it.Valid() && it.slot.None?
    modifies it
    ensures it.Valid() && it.slot.None?
    ensures done <==> old(it.Remaining()) == []
    ensures done ==> it.Remaining() == []
    ensures !done ==> got == Chunk(old(it.Remaining())[0]) && it.Remaining() == old(it.Remaining())[1..]
  {
    var x := it.Next();
    if x.None? {
      return true, [];
    }
    got := [x.value];
    if x.value == "c" {
      it.PushBack(x.value);
      x := it.Next();
      got := got + [x.value];
    }
    return false, got;
  }

  /** `test_iter1` on its own list: "c" comes out twice. */
  method TestIter1() returns (result: seq<string>)
    ensures result == ["a", "bb", "c", "c", "ddd", "ee"]
    ensures result != ["a", "bb", "c", "ddd", "ee"]
  {
    ExpectedTraceOfTestList();
    result := ReadRepeatingC(["a", "bb", "c", "ddd", "ee"]);
    assert |result| == 6;
  }
}
