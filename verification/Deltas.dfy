/**
 The leasing-balance delta stream: later balances are sent as differences from the one
 sent before (`leasing_balance_diff`, `send_subscribed` and `send_update` in
 apps/websocket-api/src/client.rs).
 */
module Deltas {
  import opened Wrappers
  import opened Subscribers

  /** The JSON values that matter here; `Wrapped` is an array of one value, everything else is some other text. */
  datatype Json =
    | Balance(balance: LeasingBalance)
    | InOnly(address: string, balanceIn: int)
    | OutOnly(address: string, balanceOut: int)
    | Other(text: string)
    | Wrapped(value: Json)

  function Diff(old_: LeasingBalance, new_: LeasingBalance): Json {
    if old_.balanceIn == new_.balanceIn && old_.balanceOut == new_.balanceOut then Balance(new_)
    else if old_.balanceIn == new_.balanceIn then OutOnly(new_.address, new_.balanceOut)
    else if old_.balanceOut == new_.balanceOut then InOnly(new_.address, new_.balanceIn)
    else Balance(new_)
  }

  /** What is sent for a value, and the balance remembered for the next one. */
  function Sent(last: Option<LeasingBalance>, value: Json): Json {
    if value.Balance? && last.Some? then Diff(last.value, value.balance) else value
  }

  function Remembered(last: Option<LeasingBalance>, value: Json): Option<LeasingBalance> {
    if value.Balance? then Some(value.balance) else last
  }

  /** All that is sent for a list of values, starting from nothing. */
  function Stream(values: seq<Json>): seq<Json> {
    if values == [] then []
    else Stream(values[..|values| - 1]) + [Sent(Latest(values[..|values| - 1]), values[|values| - 1])]
  }

  /** The last balance among the values. */
  function Latest(values: seq<Json>): Option<LeasingBalance> {
    if values == [] then None else Remembered(Latest(values[..|values| - 1]), values[|values| - 1])
  }

  // ----- The subscriber's side -----

  /** A full balance replaces what is known; a part is merged into it. */
  function Merge(known: Option<LeasingBalance>, message: Json): Option<LeasingBalance> {
    match message
    case Balance(b) => Some(b)
    case InOnly(a, i) => if known.Some? then Some(LeasingBalance(a, i, known.value.balanceOut)) else None
    case OutOnly(a, o) => if known.Some? then Some(LeasingBalance(a, known.value.balanceIn, o)) else None
    case Other(_) => known
    case Wrapped(_) => known
  }

  function MergeAll(messages: seq<Json>): Option<LeasingBalance> {
    if messages == [] then None else Merge(MergeAll(messages[..|messages| - 1]), messages[|messages| - 1])
  }

  lemma DiffMerges(a: LeasingBalance, b: LeasingBalance)
    ensures Merge(Some(a), Diff(a, b)) == Some(b)
  {
  }

  /** The values a publisher writes: whole balances or other texts, never a part of a balance. */
  ghost predicate Whole(value: Json) {
    value.Balance? || value.Other? || value.Wrapped?
  }

  /** Merging the stream in order gives the server's latest balance, at every point. */
  lemma {:induction false} StreamHoldsLatest(values: seq<Json>)
    requires forall i :: 0 <= i < |values| ==> Whole(values[i])
    ensures MergeAll(Stream(values)) == Latest(values)
  {
    if values != [] {
      var init, last := values[..|values| - 1], values[|values| - 1];
      StreamHoldsLatest(init);
      var sent := Stream(init);
      assert (sent + [Sent(Latest(init), last)])[..|sent|] == sent;
      if last.Balance? && Latest(init).Some? {
        DiffMerges(Latest(init).value, last.balance);
      }
    }
  }

  lemma StreamSnoc(values: seq<Json>, last: Json)
    ensures Stream(values + [last]) == Stream(values) + [Sent(Latest(values), last)]
    ensures Latest(values + [last]) == Remembered(Latest(values), last)
  {
    assert (values + [last])[..|values|] == values;
  }

  /** The latest balance is that of the last value that is a balance. */
  lemma {:induction false} LatestIs(values: seq<Json>)
    ensures match Latest(values)
            case None => forall i :: 0 <= i < |values| ==> !values[i].Balance?
            case Some(b) => exists i :: 0 <= i < |values| && values[i] == Balance(b)
                                        && forall j :: i < j < |values| ==> !values[j].Balance?
  {
    if values != [] {
      var init, last := values[..|values| - 1], values[|values| - 1];
      LatestIs(init);
      if !last.Balance? && Latest(init).Some? {
        var i :| 0 <= i < |init| && init[i] == Balance(Latest(init).value) && forall j :: i < j < |init| ==> !init[j].Balance?;
        assert values[i] == Balance(Latest(values).value);
      } else if last.Balance? {
        assert values[|values| - 1] == Balance(last.balance);
      }
    }
  }

  /**
   What is sent for a balance after another one: the field that changed, if only one did,
   and otherwise the whole balance. Anything else, and the first balance, is sent as it is.
   */
  lemma DeltaIs(values: seq<Json>, last: Json)
    ensures |Stream(values + [last])| == |Stream(values)| + 1
    ensures var sent := Stream(values + [last])[|Stream(values)|];
            if !last.Balance? || Latest(values).None? then sent == last
            else
              var a, b := Latest(values).value, last.balance;
              && (sent == OutOnly(b.address, b.balanceOut) <==> a.balanceIn == b.balanceIn && a.balanceOut != b.balanceOut)
              && (sent == InOnly(b.address, b.balanceIn) <==> a.balanceIn != b.balanceIn && a.balanceOut == b.balanceOut)
              && (sent == last <==> (a.balanceIn == b.balanceIn <==> a.balanceOut == b.balanceOut))
  {
    StreamSnoc(values, last);
  }

  /** The first value is sent as it is. */
  lemma FirstIsFull(first: Json)
    ensures Stream([first]) == [first] && Latest([first]) == Remembered(None, first)
  {
    StreamSnoc([], first);
    var none: seq<Json> := [];
    assert none + [first] == [first];
  }

  lemma {:induction false} OneMessageForEachValue(values: seq<Json>)
    ensures |Stream(values)| == |values|
  {
    if values != [] {
      OneMessageForEachValue(values[..|values| - 1]);
    }
  }

  /** Every prefix: after the first `n` messages the subscriber holds the latest of the first `n` values. */
  lemma {:induction false} AlwaysLatest(values: seq<Json>, n: nat)
    requires n <= |values| && forall i :: 0 <= i < |values| ==> Whole(values[i])
    ensures |Stream(values)| == |values|
    ensures MergeAll(Stream(values)[..n]) == Latest(values[..n])
  {
    OneMessageForEachValue(values);
    if n == |values| {
      assert Stream(values)[..n] == Stream(values) && values[..n] == values;
      StreamHoldsLatest(values);
    } else {
      var init := values[..|values| - 1];
      OneMessageForEachValue(init);
      AlwaysLatest(init, n);
      assert init[..n] == values[..n];
      assert Stream(values)[..n] == Stream(init)[..n];
    }
  }
}
