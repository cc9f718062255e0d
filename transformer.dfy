/**
 * The project resolver's reference strippers: they turn lists of referable
 * exclude paths and exclude matchers into plain lists of values.
 */
module Transformer {
  import opened Models

  method RefPathToList(list: seq<Referable<ResolvedPath>>) returns (result: seq<ResolvedPath>)
    ensures result == Values(list)
  {
    result := [];
    var i := 0;
    while i < |list|
      invariant 0 <= i <= |list|
      invariant result == Values(list[..i])
    {
      ValuesSnoc(list[..i], list[i]);
      assert list[..i + 1] == list[..i] + [list[i]];
      result := result + [list[i].value];
      i := i + 1;
    }
    assert list[..i] == list;
  }

  method RefRegExpToList(list: seq<Referable<Regexp>>) returns (result: seq<Regexp>)
    ensures result == Values(list)
  {
    result := [];
    var i := 0;
    while i < |list|
      invariant 0 <= i <= |list|
      invariant result == Values(list[..i])
    {
      ValuesSnoc(list[..i], list[i]);
      assert list[..i + 1] == list[..i] + [list[i]];
      result := result + [list[i].value];
      i := i + 1;
    }
    assert list[..i] == list;
  }

  /** The values of a list of referables. */
  function Values<T>(list: seq<Referable<T>>): seq<T>
  {
    if list == [] then [] else [list[0].value] + Values(list[1..])
  }

  /** Stripping references undoes wrapping values with one reference. */
  lemma {:induction false} ValuesOfWrap<T>(ref: Reference, values: seq<T>)
    ensures Values(Wrap(ref, values)) == values
  {
    if values != [] {
      assert Wrap(ref, values)[1..] == Wrap(ref, values[1..]);
      ValuesOfWrap(ref, values[1..]);
      assert values == [values[0]] + values[1..];
    }
  }

  lemma ValuesSnoc<T>(list: seq<Referable<T>>, last: Referable<T>)
    ensures Values(list + [last]) == Values(list) + [last.value]
  {
    ValuesConcat(list, [last]);
    assert [last][1..] == [];
  }

  /** Stripping keeps order and drops only the references: it commutes with concatenation. */
  lemma {:induction false} ValuesConcat<T>(a: seq<Referable<T>>, b: seq<Referable<T>>)
    ensures Values(a + b) == Values(a) + Values(b)
  {
    if a != [] {
      assert (a + b)[1..] == a[1..] + b;
      ValuesConcat(a[1..], b);
    } else {
      assert a + b == b;
    }
  }

  /** The strippers compute exactly the values of their input. */
  lemma {:induction false} ValuesElementwise<T>(list: seq<Referable<T>>)
    ensures |Values(list)| == |list|
    ensures forall i :: 0 <= i < |list| ==> Values(list)[i] == list[i].value
  {
    if list != [] {
      ValuesElementwise(list[1..]);
      assert forall i :: 1 <= i < |list| ==> list[1..][i - 1] == list[i];
    }
  }
}
