/**
 * `SNode.place(*args, offset=None, shared_exponent=False)`: every member of
 * every field argument, in order and through nested lists, is placed under the
 * node with the same normalised offset; the calls may be bracketed by a
 * shared-exponent placement. Anything that is neither a field nor a list
 * raises `ValueError`, after the placements issued before it.
 */
module Placement {
  /** A positional argument: a field with its member variables, a (nested) list, or anything else. */
  datatype Arg = FieldArg(members: seq<nat>) | ListArg(items: seq<Arg>) | OtherArg

  /** The `offset` keyword: absent, a single number, or a sequence of numbers. */
  datatype OffsetArg = NoOffset | NumberOffset(n: int) | SeqOffset(s: seq<int>)

  /** A call issued on the underlying node. */
  datatype PlaceCall = BeginSharedExp | PlaceVar(member: nat, offset: seq<int>) | EndSharedExp

  /** The calls issued, and whether a `ValueError` ended the placement. */
  datatype Outcome = Outcome(calls: seq<PlaceCall>, failed: bool)

  /** `None` becomes `()`, a number `n` becomes `(n,)`, a sequence is kept. */
  function NormalizeOffset(o: OffsetArg): (r: seq<int>)
    ensures o.NoOffset? ==> r == []
    ensures o.NumberOffset? ==> r == [o.n]
    ensures o.SeqOffset? ==> r == o.s
  {
    match o
    case NoOffset => []
    case NumberOffset(n) => [n]
    case SeqOffset(s) => s
  }

  // Reference semantics: flatten the arguments, then read off the calls.

  /** The non-list arguments in the order the placement visits them. */
  function Flatten(args: seq<Arg>): (r: seq<Arg>)
    ensures forall i :: 0 <= i < |r| ==> !r[i].ListArg?
    decreases args
  {
    if args == [] then [] else FlattenOne(args[0]) + Flatten(args[1..])
  }

  function FlattenOne(a: Arg): (r: seq<Arg>)
    ensures forall i :: 0 <= i < |r| ==> !r[i].ListArg?
    decreases a
  {
    match a
    case ListArg(items) => Flatten(items)
    case _ => [a]
  }

  /** The flattened arguments before the first one that cannot be placed. */
  function UpToInvalid(flat: seq<Arg>): (r: seq<Arg>)
    ensures r <= flat
    ensures OtherArg !in r
    ensures OtherArg in flat ==> |r| < |flat| && flat[|r|] == OtherArg
    ensures OtherArg !in flat ==> r == flat
  {
    if flat == [] then []
    else if flat[0] == OtherArg then []
    else [flat[0]] + UpToInvalid(flat[1..])
  }

  function MemberCalls(members: seq<nat>, offset: seq<int>): (r: seq<PlaceCall>)
    ensures |r| == |members|
    ensures forall i :: 0 <= i < |r| ==> r[i] == PlaceVar(members[i], offset)
  {
    seq(|members|, i requires 0 <= i < |members| => PlaceVar(members[i], offset))
  }

  /** The placements for already-flattened, placeable arguments. */
  function FieldCalls(flat: seq<Arg>, offset: seq<int>): seq<PlaceCall>
    requires forall i :: 0 <= i < |flat| ==> flat[i].FieldArg?
  {
    if flat == [] then [] else MemberCalls(flat[0].members, offset) + FieldCalls(flat[1..], offset)
  }

  lemma {:induction false} FieldCallsAppend(x: seq<Arg>, y: seq<Arg>, offset: seq<int>)
    requires forall i :: 0 <= i < |x| ==> x[i].FieldArg?
    requires forall i :: 0 <= i < |y| ==> y[i].FieldArg?
    ensures FieldCalls(x + y, offset) == FieldCalls(x, offset) + FieldCalls(y, offset)
    decreases |x|
  {
    if x != [] {
      assert (x + y)[1..] == x[1..] + y;
      FieldCallsAppend(x[1..], y, offset);
    } else {
      assert x + y == y;
    }
  }

  lemma {:induction false} UpToInvalidAppend(x: seq<Arg>, y: seq<Arg>)
    ensures UpToInvalid(x + y) == if OtherArg in x then UpToInvalid(x) else x + UpToInvalid(y)
    decreases |x|
  {
    if x == [] {
      assert x + y == y;
    } else {
      var xy := x + y;
      assert xy[0] == x[0];
      if x[0] == OtherArg {
        assert OtherArg in x;
      } else {
        assert xy[1..] == x[1..] + y;
        UpToInvalidAppend(x[1..], y);
        assert OtherArg in x <==> OtherArg in x[1..];
        assert x == [x[0]] + x[1..];
      }
    }
  }

  /** The flattened arguments before the first invalid one are all fields. */
  lemma UpToInvalidFields(args: seq<Arg>)
    ensures forall i :: 0 <= i < |UpToInvalid(Flatten(args))| ==> UpToInvalid(Flatten(args))[i].FieldArg?
  {
    var flat := Flatten(args);
    var u := UpToInvalid(flat);
    forall i | 0 <= i < |u| ensures u[i].FieldArg? {
      assert u[i] == flat[i];
      assert u[i] != OtherArg;
    }
  }

  /** The calls the reference semantics predicts for the loop over `args`. */
  function ExpectedCalls(args: seq<Arg>, offset: seq<int>): seq<PlaceCall> {
    UpToInvalidFields(args);
    FieldCalls(UpToInvalid(Flatten(args)), offset)
  }

  // The placement as written: a loop over the arguments, recursing into lists.

  function PlaceArgs(args: seq<Arg>, offset: seq<int>): (r: Outcome)
    ensures r.failed <==> OtherArg in Flatten(args)
    ensures r.calls == ExpectedCalls(args, offset)
    decreases args
  {
    if args == [] then Outcome([], false)
    else
      var first := PlaceArg(args[0], offset);
      var rest := PlaceArgs(args[1..], offset);
      PlaceStep(args, offset, first, rest);
      if first.failed then first else Outcome(first.calls + rest.calls, rest.failed)
  }

  function PlaceArg(a: Arg, offset: seq<int>): (r: Outcome)
    ensures r.failed <==> OtherArg in FlattenOne(a)
    ensures r.calls == ExpectedCalls([a], offset)
    decreases a
  {
    match a
    case FieldArg(members) =>
      assert Flatten([a]) == [a];
      assert UpToInvalid([a]) == [a];
      assert FieldCalls([a], offset) == MemberCalls(members, offset) + FieldCalls([], offset);
      Outcome(MemberCalls(members, offset), false)
    case ListArg(items) =>
      assert Flatten([a]) == Flatten(items) by {
        assert Flatten([a]) == FlattenOne(a) + Flatten([]);
      }
      PlaceArgs(items, offset)
    case OtherArg =>
      assert Flatten([a]) == [a];
      Outcome([], true)
  }

  /** One step of the argument loop agrees with the reference semantics. */
  lemma PlaceStep(args: seq<Arg>, offset: seq<int>, first: Outcome, rest: Outcome)
    requires args != []
    requires first.failed <==> OtherArg in FlattenOne(args[0])
    requires first.calls == ExpectedCalls([args[0]], offset)
    requires rest.failed <==> OtherArg in Flatten(args[1..])
    requires rest.calls == ExpectedCalls(args[1..], offset)
    ensures first.failed ==> OtherArg in Flatten(args) && first.calls == ExpectedCalls(args, offset)
    ensures !first.failed ==> (rest.failed <==> OtherArg in Flatten(args)) &&
                              first.calls + rest.calls == ExpectedCalls(args, offset)
  {
    var x := FlattenOne(args[0]);
    var y := Flatten(args[1..]);
    assert Flatten([args[0]]) == x by {
      assert Flatten([args[0]]) == FlattenOne(args[0]) + Flatten([]);
    }
    assert Flatten(args) == x + y;
    UpToInvalidAppend(x, y);
    UpToInvalidFields([args[0]]);
    UpToInvalidFields(args[1..]);
    UpToInvalidFields(args);
    if OtherArg !in x {
      FieldCallsAppend(x, UpToInvalid(y), offset);
    }
  }

  /**
   * `place` on a node: the shared-exponent bracket opens first, every member is
   * placed with the normalised offset, and the bracket closes only when no
   * argument was rejected.
   */
  function Place(args: seq<Arg>, offset: OffsetArg, sharedExponent: bool): (r: Outcome)
    ensures r.failed <==> OtherArg in Flatten(args)
    ensures var off := NormalizeOffset(offset);
            var open := if sharedExponent then [BeginSharedExp] else [];
            var close := if sharedExponent && !r.failed then [EndSharedExp] else [];
            r.calls == open + ExpectedCalls(args, off) + close
  {
    var off := NormalizeOffset(offset);
    var body := PlaceArgs(args, off);
    var open := if sharedExponent then [BeginSharedExp] else [];
    var close := if sharedExponent && !body.failed then [EndSharedExp] else [];
    Outcome(open + body.calls + close, body.failed)
  }

  /** Every placement carries the normalised offset, whatever the nesting of the arguments. */
  lemma {:induction false} PlacementsShareOffset(flat: seq<Arg>, offset: seq<int>)
    requires forall i :: 0 <= i < |flat| ==> flat[i].FieldArg?
    ensures forall c :: c in FieldCalls(flat, offset) ==> c.PlaceVar? && c.offset == offset
    decreases |flat|
  {
    if flat != [] {
      PlacementsShareOffset(flat[1..], offset);
    }
  }

  /** Without invalid arguments, every member of every field argument is placed, in order, with the offset. */
  lemma {:induction false} FieldsOnlyPlacesAll(fields: seq<seq<nat>>, offset: seq<int>)
    ensures var args := seq(|fields|, i requires 0 <= i < |fields| => FieldArg(fields[i]));
            var r := PlaceArgs(args, offset);
            !r.failed && r.calls == MemberCalls(AllMembers(fields), offset)
    decreases |fields|
  {
    var args := seq(|fields|, i requires 0 <= i < |fields| => FieldArg(fields[i]));
    if fields != [] {
      FieldsOnlyPlacesAll(fields[1..], offset);
      assert args[1..] == seq(|fields[1..]|, i requires 0 <= i < |fields[1..]| => FieldArg(fields[1..][i]));
      assert PlaceArg(args[0], offset).calls == MemberCalls(fields[0], offset);
      MemberCallsAppend(fields[0], AllMembers(fields[1..]), offset);
    } else {
      assert MemberCalls([], offset) == [];
    }
  }

  /** The members of all the fields, field by field. */
  function AllMembers(fields: seq<seq<nat>>): seq<nat> {
    if fields == [] then [] else fields[0] + AllMembers(fields[1..])
  }

  lemma MemberCallsAppend(x: seq<nat>, y: seq<nat>, offset: seq<int>)
    ensures MemberCalls(x + y, offset) == MemberCalls(x, offset) + MemberCalls(y, offset)
  {
    assert |MemberCalls(x + y, offset)| == |MemberCalls(x, offset) + MemberCalls(y, offset)|;
    forall i | 0 <= i < |x| + |y|
      ensures MemberCalls(x + y, offset)[i] == (MemberCalls(x, offset) + MemberCalls(y, offset))[i]
    {
      if i < |x| { assert (x + y)[i] == x[i]; } else { assert (x + y)[i] == y[i - |x|]; }
    }
  }
}
