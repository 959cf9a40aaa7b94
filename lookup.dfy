/**
 * Keyed lookup (MetroDW.findById): a linear scan of a partition for the first product whose
 * PRODUCT_ID equals the wanted value, or nothing (the source's `null`).
 */
module Lookup {
  import opened Wrappers
  import opened Rows

  /** Some product of `data` has PRODUCT_ID `value`. */
  predicate HasProduct(data: seq<Product>, value: int)
  {
    exists i :: 0 <= i < |data| && data[i].productId == value
  }

  /** Position `i` holds the first product of `data` whose PRODUCT_ID is `value`. */
  predicate IsFirstMatch(data: seq<Product>, value: int, i: int)
  {
    && 0 <= i < |data|
    && data[i].productId == value
    && forall j :: 0 <= j < i ==> data[j].productId != value
  }

  /** The specification of findById, by recursion over the list. */
  function FirstWithId(data: seq<Product>, value: int): Option<Product>
  {
    if data == [] then None
    else if data[0].productId == value then Some(data[0])
    else FirstWithId(data[1..], value)
  }

  /** findById: returns the first matching record, so no earlier record matches; `None` exactly when none does. */
  lemma {:induction false} FirstWithIdCorrect(data: seq<Product>, value: int)
    ensures FirstWithId(data, value).None? <==> !HasProduct(data, value)
    ensures FirstWithId(data, value).Some? ==>
              exists i :: IsFirstMatch(data, value, i) && data[i] == FirstWithId(data, value).value
  {
    if data != [] && data[0].productId != value {
      FirstWithIdCorrect(data[1..], value);
      if HasProduct(data, value) {
        var i :| 0 <= i < |data| && data[i].productId == value;
        assert data[1..][i - 1].productId == value;
      }
      if HasProduct(data[1..], value) {
        var i :| 0 <= i < |data[1..]| && data[1..][i].productId == value;
        assert data[i + 1].productId == value;
      }
      if FirstWithId(data, value).Some? {
        var i :| IsFirstMatch(data[1..], value, i) && data[1..][i] == FirstWithId(data, value).value;
        assert IsFirstMatch(data, value, i + 1);
      }
    } else if data != [] {
      assert IsFirstMatch(data, value, 0);
    }
  }

  /** A found product is a member of the list and carries the wanted PRODUCT_ID. */
  lemma FirstWithIdFound(data: seq<Product>, value: int)
    requires FirstWithId(data, value).Some?
    ensures FirstWithId(data, value).value in data
    ensures FirstWithId(data, value).value.productId == value
  {
    FirstWithIdCorrect(data, value);
  }

  /** findById(data, "PRODUCT_ID", value): the early-return scan of lines 230-235. */
  method FindById(data: seq<Product>, value: int) returns (r: Option<Product>)
    ensures r == FirstWithId(data, value)
    ensures r.None? <==> !HasProduct(data, value)
    ensures r.Some? ==> exists i :: IsFirstMatch(data, value, i) && data[i] == r.value
  {
    var i := 0;
    while i < |data|
      invariant 0 <= i <= |data|
      invariant forall j :: 0 <= j < i ==> data[j].productId != value
      invariant FirstWithId(data[i..], value) == FirstWithId(data, value)
    {
      if data[i].productId == value {
        assert IsFirstMatch(data, value, i);
        assert data[i..][0] == data[i];
        r := Some(data[i]);
        FirstWithIdCorrect(data, value);
        return;
      }
      assert data[i..][1..] == data[i + 1..];
      i := i + 1;
    }
    r := None;
    FirstWithIdCorrect(data, value);
  }
}
