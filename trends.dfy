/** `is_item_rising` (GrandExchangeScript.py:29-35 and :149-155). */
module Trends {
  import opened Wrappers
  import opened Json

  /** The three windows whose trend the classifier reads, in reading order. */
  const Windows: seq<string> := ["day30", "day90", "day180"]

  /** A trend that lets an item count as rising. */
  predicate Steady(t: Json) {
    t == JString("positive") || t == JString("neutral")
  }

  /** `item_data[window]['trend']`: found when the item is a dict holding a
      dict under `window` that has a `trend`; otherwise the lookup raises
      KeyError or TypeError. */
  function TrendOf(item: Json, window: string): (r: Outcome<Json>)
    ensures r.Ok? <==> item.JObject? && Lookup(item.members, window).Some? &&
                       Lookup(item.members, window).value.JObject? &&
                       Lookup(Lookup(item.members, window).value.members, "trend").Some?
    ensures r.Ok? ==> Some(r.value) == Lookup(Lookup(item.members, window).value.members, "trend")
    ensures r.Err? ==> r.error == KeyError || r.error == TypeError
  {
    var w :- Subscript(item, window);
    Subscript(w, "trend")
  }

  /** `is_item_rising(item_data)`: the three trends are read first, in window
      order, so a missing one raises whatever the others say; then the item is
      rising exactly when every trend is `positive` or `neutral`. */
  function IsItemRising(item: Json): (r: Outcome<bool>)
    ensures r.Ok? <==> TrendOf(item, "day30").Ok? && TrendOf(item, "day90").Ok? && TrendOf(item, "day180").Ok?
    ensures r.Ok? ==>
              (r.value <==> Steady(TrendOf(item, "day30").value) && Steady(TrendOf(item, "day90").value) &&
                            Steady(TrendOf(item, "day180").value))
    ensures r.Err? ==> TrendOf(item, FirstFailing(item)).Err? && r.error == TrendOf(item, FirstFailing(item)).error
  {
    var t30 :- TrendOf(item, "day30");
    var t90 :- TrendOf(item, "day90");
    var t180 :- TrendOf(item, "day180");
    Ok(Steady(t30) && Steady(t90) && Steady(t180))
  }

  /** The first window whose trend cannot be read. */
  function FirstFailing(item: Json): string {
    if TrendOf(item, "day30").Err? then "day30"
    else if TrendOf(item, "day90").Err? then "day90"
    else "day180"
  }

  /** A trend outside {positive, neutral} in any one window rules the item
      out, whatever the other two say: `negative`, but also any other value,
      which a reading of the classifier as "no window is negative" would let
      through. */
  lemma OneUnsteadyWindowExcludes(item: Json, w: string)
    requires w in Windows
    requires TrendOf(item, w).Ok? && !Steady(TrendOf(item, w).value)
    ensures IsItemRising(item) != Ok(true)
  {
  }

  /** An item whose three trends are `positive`, `positive` and `rising` has
      no negative window and is still not rising. */
  lemma NoNegativeIsNotEnough(item: Json)
    requires TrendOf(item, "day30") == Ok(JString("positive"))
    requires TrendOf(item, "day90") == Ok(JString("positive"))
    requires TrendOf(item, "day180") == Ok(JString("rising"))
    ensures forall w :: w in Windows ==> TrendOf(item, w) != Ok(JString("negative"))
    ensures IsItemRising(item) == Ok(false)
  {
  }
}
