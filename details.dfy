/** The loop of `fetch_item_details` (GrandExchangeScript.py:51-75 and
    :171-195): every id is fetched in turn, and a row is appended for each
    item that is rising and has a positive margin. */
module DetailPipeline {
  import opened Wrappers
  import opened Json
  import opened Api
  import opened Prices
  import opened Trends

  /** One entry of `positive_items`. */
  datatype Row = Row(id: Json, name: Json, buy: int, sell: int, margin: int)

  /** What one pass of the loop body makes of an id and its fetch result:
      `None` when the item is skipped, a row when it is appended, an error
      when a lookup or the price conversion raises. */
  function Assess(v: Variant, id: Json, data: Option<Json>): (r: Outcome<Option<Row>>)
    ensures data.None? || !Truthy(data.value) ==> r == Ok(None)
    ensures r.Ok? && r.value.Some? ==>
              var row := r.value.value;
              row.id == id && row.margin > 0 && row.margin == row.sell - row.buy &&
              data.Some? && Truthy(data.value) && Subscript(data.value, "item").Ok? &&
              var item := Subscript(data.value, "item").value;
              IsItemRising(item) == Ok(true) &&
              EstimateMargin(v, item) == Ok(Estimate(row.buy, row.sell, row.margin)) &&
              Subscript(item, "name") == Ok(row.name)
    ensures data.Some? && Truthy(data.value) && Subscript(data.value, "item").Ok? ==>
              var item := Subscript(data.value, "item").value;
              (IsItemRising(item) == Ok(false) ==> r == Ok(None)) &&
              ((IsItemRising(item) == Ok(true) && EstimateMargin(v, item).Ok? &&
                EstimateMargin(v, item).value.margin <= 0) ==> r == Ok(None))
  {
    if data.None? || !Truthy(data.value) then Ok(None)
    else
      var item :- Subscript(data.value, "item");
      var rising :- IsItemRising(item);
      if !rising then Ok(None)
      else
        var e :- EstimateMargin(v, item);
        if e.margin > 0 then
          var name :- Subscript(item, "name");
          Ok(Some(Row(id, name, e.buy, e.sell, e.margin)))
        else Ok(None)
  }

  /** What the loop body does in every case that reaches the item: it
      appends the row when the item is rising, its margin positive and its
      name readable, and raises the error of the first lookup or conversion
      that fails. */
  lemma AssessCases(v: Variant, id: Json, data: Option<Json>)
    ensures data.Some? && Truthy(data.value) && Subscript(data.value, "item").Ok? ==>
              var item := Subscript(data.value, "item").value;
              var e := EstimateMargin(v, item);
              (IsItemRising(item) == Ok(true) && e.Ok? && e.value.margin > 0 && Subscript(item, "name").Ok?) ==>
                Assess(v, id, data) == Ok(Some(Row(id, Subscript(item, "name").value, e.value.buy, e.value.sell, e.value.margin)))
    ensures data.Some? && Truthy(data.value) ==>
              var item := Subscript(data.value, "item");
              (item.Err? ==> Assess(v, id, data) == Err(item.error)) &&
              (item.Ok? && IsItemRising(item.value).Err? ==> Assess(v, id, data) == Err(IsItemRising(item.value).error)) &&
              (item.Ok? && IsItemRising(item.value) == Ok(true) && EstimateMargin(v, item.value).Err? ==>
                 Assess(v, id, data) == Err(EstimateMargin(v, item.value).error)) &&
              (item.Ok? && IsItemRising(item.value) == Ok(true) && EstimateMargin(v, item.value).Ok? &&
               EstimateMargin(v, item.value).value.margin > 0 && Subscript(item.value, "name").Err? ==>
                 Assess(v, id, data) == Err(Subscript(item.value, "name").error))
  {
  }

  function Emitted(o: Option<Row>): seq<Row> {
    if o.Some? then [o.value] else []
  }

  /** The rows the loop hands to `save_to_csv`, or the error that ends it:
      ids are processed in order and the first error stops the run. */
  function Details(v: Variant, fetch: Oracle, ids: seq<Json>): Outcome<seq<Row>>
    decreases |ids|
  {
    if ids == [] then Ok([])
    else
      var head :- Assess(v, ids[0], fetch(Detail(ids[0])));
      var tail :- Details(v, fetch, ids[1..]);
      Ok(Emitted(head) + tail)
  }

  /** The rows already collected, followed by what the rest yields. */
  function Prefixed(rows: seq<Row>, rest: Outcome<seq<Row>>): Outcome<seq<Row>> {
    if rest.Ok? then Ok(rows + rest.value) else rest
  }

  method FetchItemDetails(v: Variant, fetch: Oracle, ids: seq<Json>) returns (r: Outcome<seq<Row>>)
    ensures r == Details(v, fetch, ids)
  {
    var positiveItems: seq<Row> := [];
    assert ids[0..] == ids;
    PrefixedNothing(Details(v, fetch, ids));
    for i := 0 to |ids|
      invariant Prefixed(positiveItems, Details(v, fetch, ids[i..])) == Details(v, fetch, ids)
    {
      var id := ids[i];
      var data := fetch(Detail(id));
      ghost var verdict := Assess(v, id, data);
      DetailsStep(v, fetch, ids, i);
      if data.Some? && Truthy(data.value) {
        var item := Subscript(data.value, "item");
        if item.Err? {
          assert verdict == Err(item.error);
          return Err(item.error);
        }
        var rising := IsItemRising(item.value);
        if rising.Err? {
          assert verdict == Err(rising.error);
          return Err(rising.error);
        }
        if rising.value {
          var e := EstimateMargin(v, item.value);
          if e.Err? {
            assert verdict == Err(e.error);
            return Err(e.error);
          }
          if e.value.margin > 0 {
            var name := Subscript(item.value, "name");
            if name.Err? {
              assert verdict == Err(name.error);
              return Err(name.error);
            }
            var row := Row(id, name.value, e.value.buy, e.value.sell, e.value.margin);
            assert verdict == Ok(Some(row));
            PrefixedAppend(positiveItems, [row], Details(v, fetch, ids[i + 1..]));
            positiveItems := positiveItems + [row];
          } else {
            assert verdict == Ok(None);
            PrefixedAppend(positiveItems, [], Details(v, fetch, ids[i + 1..]));
            assert positiveItems + [] == positiveItems;
          }
        } else {
          assert verdict == Ok(None);
          PrefixedAppend(positiveItems, [], Details(v, fetch, ids[i + 1..]));
          assert positiveItems + [] == positiveItems;
        }
      } else {
        assert verdict == Ok(None);
        PrefixedAppend(positiveItems, [], Details(v, fetch, ids[i + 1..]));
        assert positiveItems + [] == positiveItems;
      }
    }
    assert ids[|ids|..] == [];
    assert positiveItems + [] == positiveItems;
    r := Ok(positiveItems);
  }

  lemma PrefixedNothing(rest: Outcome<seq<Row>>)
    ensures Prefixed([], rest) == rest
  {
    if rest.Ok? {
      assert [] + rest.value == rest.value;
    }
  }

  lemma PrefixedAppend(rows: seq<Row>, more: seq<Row>, rest: Outcome<seq<Row>>)
    ensures Prefixed(rows, Prefixed(more, rest)) == Prefixed(rows + more, rest)
  {
    if rest.Ok? {
      assert rows + (more + rest.value) == (rows + more) + rest.value;
    }
  }

  /** One step of the loop, seen from the specification. */
  lemma DetailsStep(v: Variant, fetch: Oracle, ids: seq<Json>, i: nat)
    requires i < |ids|
    ensures Details(v, fetch, ids[i..]) ==
            match Assess(v, ids[i], fetch(Detail(ids[i])))
            case Err(e) => Err(e)
            case Ok(o) => Prefixed(Emitted(o), Details(v, fetch, ids[i + 1..]))
  {
    assert ids[i..][0] == ids[i] && ids[i..][1..] == ids[i + 1..];
  }

  /** Processing `a + b` is processing `a`, then `b`: rows keep the order of
      the ids, and an error in `a` ends the run before `b` is fetched. */
  lemma {:induction false} DetailsAppend(v: Variant, fetch: Oracle, a: seq<Json>, b: seq<Json>)
    ensures Details(v, fetch, a + b) ==
            if Details(v, fetch, a).Ok? then Prefixed(Details(v, fetch, a).value, Details(v, fetch, b))
            else Details(v, fetch, a)
  {
    if a == [] {
      assert a + b == b;
      if Details(v, fetch, b).Ok? {
        assert [] + Details(v, fetch, b).value == Details(v, fetch, b).value;
      }
    } else {
      assert (a + b)[0] == a[0] && (a + b)[1..] == a[1..] + b;
      var head := Assess(v, a[0], fetch(Detail(a[0])));
      if head.Ok? {
        DetailsAppend(v, fetch, a[1..], b);
        var rest := Details(v, fetch, a[1..]);
        if rest.Ok? && Details(v, fetch, b).Ok? {
          assert Emitted(head.value) + (rest.value + Details(v, fetch, b).value) ==
                 (Emitted(head.value) + rest.value) + Details(v, fetch, b).value;
        }
      }
    }
  }

  /** The ids are not de-duplicated: an id listed twice is fetched twice and
      yields its row twice. */
  lemma DuplicateIdsRepeatRows(v: Variant, fetch: Oracle, ids: seq<Json>)
    requires Details(v, fetch, ids).Ok?
    ensures Details(v, fetch, ids + ids) == Ok(Details(v, fetch, ids).value + Details(v, fetch, ids).value)
  {
    DetailsAppend(v, fetch, ids, ids);
  }

  /** An id whose fetch fails, or yields a false value, is skipped and
      changes nothing else. */
  lemma FailedFetchSkipped(v: Variant, fetch: Oracle, a: seq<Json>, id: Json, b: seq<Json>)
    requires fetch(Detail(id)).None? || !Truthy(fetch(Detail(id)).value)
    ensures Details(v, fetch, a + [id] + b) == Details(v, fetch, a + b)
  {
    DetailsAppend(v, fetch, a + [id], b);
    DetailsAppend(v, fetch, a, [id]);
    DetailsAppend(v, fetch, a, b);
    assert [id][1..] == [];
    assert Details(v, fetch, [id]) == Ok([]) by {
      assert [id][0] == id;
      assert Assess(v, id, fetch(Detail(id))) == Ok(None);
      assert Details(v, fetch, [id][1..]) == Ok([]);
      assert Emitted(None) + [] == [];
    }
    if Details(v, fetch, a).Ok? {
      assert Details(v, fetch, a).value + [] == Details(v, fetch, a).value;
    }
  }

  /** The converse of `RowsQualify`: a row the loop body emits for an id is
      kept, at that id's place, in a run that completes. */
  lemma EmittedRowKept(v: Variant, fetch: Oracle, ids: seq<Json>, i: nat, row: Row)
    requires Details(v, fetch, ids).Ok? && i < |ids|
    requires Assess(v, ids[i], fetch(Detail(ids[i]))) == Ok(Some(row))
    ensures Details(v, fetch, ids[..i]).Ok? && Details(v, fetch, ids[i + 1..]).Ok?
    ensures Details(v, fetch, ids).value ==
            Details(v, fetch, ids[..i]).value + [row] + Details(v, fetch, ids[i + 1..]).value
    ensures row in Details(v, fetch, ids).value
  {
    DetailsAround(v, fetch, ids, i);
    DetailsAt(v, fetch, ids, i, row);
    PrefixedSplit(Details(v, fetch, ids), Details(v, fetch, ids[..i]), Details(v, fetch, ids[i..]),
                  Details(v, fetch, ids[i + 1..]), row);
  }

  lemma PrefixedSplit(whole: Outcome<seq<Row>>, front: Outcome<seq<Row>>, mid: Outcome<seq<Row>>,
                      rest: Outcome<seq<Row>>, row: Row)
    requires whole == if front.Ok? then Prefixed(front.value, mid) else front
    requires mid == Prefixed([row], rest)
    requires whole.Ok?
    ensures front.Ok? && rest.Ok?
    ensures whole.value == front.value + [row] + rest.value
    ensures row in whole.value
  {
    assert front.value + ([row] + rest.value) == front.value + [row] + rest.value;
    assert whole.value[|front.value|] == row;
  }

  /** A run over `ids` is the run up to `i`, then the run from `i` on. */
  lemma DetailsAround(v: Variant, fetch: Oracle, ids: seq<Json>, i: nat)
    requires i <= |ids|
    ensures Details(v, fetch, ids) ==
            if Details(v, fetch, ids[..i]).Ok? then Prefixed(Details(v, fetch, ids[..i]).value, Details(v, fetch, ids[i..]))
            else Details(v, fetch, ids[..i])
  {
    assert ids == ids[..i] + ids[i..];
    DetailsAppend(v, fetch, ids[..i], ids[i..]);
  }

  /** From an id whose row is emitted on, the run is that row, then the rest. */
  lemma DetailsAt(v: Variant, fetch: Oracle, ids: seq<Json>, i: nat, row: Row)
    requires i < |ids| && Assess(v, ids[i], fetch(Detail(ids[i]))) == Ok(Some(row))
    ensures Details(v, fetch, ids[i..]) == Prefixed([row], Details(v, fetch, ids[i + 1..]))
  {
    DetailsStep(v, fetch, ids, i);
  }

  /** `xs` can be had from `ys` by deleting elements. */
  predicate SubsequenceOf<T(==)>(xs: seq<T>, ys: seq<T>)
    decreases |ys|
  {
    xs == [] ||
    (ys != [] &&
     ((xs[0] == ys[0] && SubsequenceOf(xs[1..], ys[1..])) || SubsequenceOf(xs, ys[1..])))
  }

  function IdsOf(rows: seq<Row>): seq<Json> {
    seq(|rows|, j requires 0 <= j < |rows| => rows[j].id)
  }

  /** The rows come in the order of their ids in the input: their ids are
      the input ids with some left out. */
  lemma {:induction false} RowsFollowIdOrder(v: Variant, fetch: Oracle, ids: seq<Json>)
    requires Details(v, fetch, ids).Ok?
    ensures |Details(v, fetch, ids).value| <= |ids|
    ensures SubsequenceOf(IdsOf(Details(v, fetch, ids).value), ids)
  {
    if ids != [] {
      RowsFollowIdOrder(v, fetch, ids[1..]);
      var head := Assess(v, ids[0], fetch(Detail(ids[0])));
      var tail := Details(v, fetch, ids[1..]).value;
      var rows := Details(v, fetch, ids).value;
      assert rows == Emitted(head.value) + tail;
      if head.value.Some? {
        assert IdsOf(rows)[0] == ids[0];
        assert IdsOf(rows)[1..] == IdsOf(tail);
      } else {
        assert IdsOf(rows) == IdsOf(tail);
      }
    }
  }

  /** Every row stems from an input id whose fetch succeeded with a true
      value and whose item was rising with a positive margin. */
  lemma {:induction false} RowsQualify(v: Variant, fetch: Oracle, ids: seq<Json>)
    requires Details(v, fetch, ids).Ok?
    ensures forall row :: row in Details(v, fetch, ids).value ==>
              exists i :: 0 <= i < |ids| && ids[i] == row.id &&
                          Assess(v, ids[i], fetch(Detail(ids[i]))) == Ok(Some(row))
  {
    if ids != [] {
      RowsQualify(v, fetch, ids[1..]);
      var head := Assess(v, ids[0], fetch(Detail(ids[0])));
      var tail := Details(v, fetch, ids[1..]).value;
      assert Details(v, fetch, ids).value == Emitted(head.value) + tail;
      forall row | row in Details(v, fetch, ids).value
        ensures exists i :: 0 <= i < |ids| && ids[i] == row.id &&
                            Assess(v, ids[i], fetch(Detail(ids[i]))) == Ok(Some(row))
      {
        if row in tail {
          var i :| 0 <= i < |ids[1..]| && ids[1..][i] == row.id &&
                   Assess(v, ids[1..][i], fetch(Detail(ids[1..][i]))) == Ok(Some(row));
          assert ids[i + 1] == ids[1..][i];
        } else {
          assert head == Ok(Some(row));
        }
      }
    }
  }
}
