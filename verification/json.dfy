/**
 * The JavaScript values the CSS generator reads out of a design document.
 * An object is kept as its list of entries in `Object.keys` order, so that
 * the order in which the generator visits keys is explicit.
 */
module Json {
  import opened Wrappers

  /** A value found under a style key. */
  datatype Value = Str(s: string) | Num(x: real) | Bool(b: bool) | Null

  /** A JavaScript object: its entries in `Object.keys` order. */
  type Object<V> = seq<(string, V)>

  /** Every key occurs once, as in any real JavaScript object. */
  predicate DistinctKeys<V>(o: Object<V>) {
    forall i, j :: 0 <= i < j < |o| ==> o[i].0 != o[j].0
  }

  /** Own-property lookup `o[key]`: the value of the first entry carrying `key`. */
  function Get<V>(o: Object<V>, key: string): (r: Option<V>)
    ensures r.None? <==> forall i :: 0 <= i < |o| ==> o[i].0 != key
    ensures r.Some? ==>
      exists i :: 0 <= i < |o| && o[i] == (key, r.value) &&
        forall j :: 0 <= j < i ==> o[j].0 != key
  {
    if |o| == 0 then None
    else if o[0].0 == key then Some(o[0].1)
    else
      var r := Get(o[1..], key);
      assert forall i :: 0 < i < |o| ==> o[i] == o[1..][i - 1];
      r
  }

  /**
   * In an object with distinct keys, looking up the key of an entry gives
   * that entry's value: visiting the entries in order is the same as
   * visiting `Object.keys(o)` and reading `o[key]` for each.
   */
  lemma GetEntry<V>(o: Object<V>, i: int)
    requires DistinctKeys(o)
    requires 0 <= i < |o|
    ensures Get(o, o[i].0) == Some(o[i].1)
  {
    var r := Get(o, o[i].0);
    assert r.Some?;
    var j :| 0 <= j < |o| && o[j] == (o[i].0, r.value) &&
      forall k :: 0 <= k < j ==> o[k].0 != o[i].0;
    assert j == i;
  }

  /** The text a template literal `${v}` produces, numbers printed by `show`. */
  function Display(v: Value, show: real -> string): string {
    match v
    case Str(s) => s
    case Num(x) => show(x)
    case Bool(b) => if b then "true" else "false"
    case Null => "null"
  }

  /** Decimal digits of a natural number. */
  function NatToString(n: nat): (r: string)
    ensures |r| >= 1
    ensures forall i :: 0 <= i < |r| ==> '0' <= r[i] <= '9'
  {
    var d := ['0' + (n % 10) as char];
    if n < 10 then d else NatToString(n / 10) + d
  }

  /**
   * JavaScript's printing of a number whose value is an integer of
   * magnitude below 10^21 (larger ones print in exponent notation, and
   * other values are not integers: neither case is covered here).
   */
  function IntegralToString(x: real): string {
    if x < 0.0 then "-" + NatToString((-x).Floor) else NatToString(x.Floor)
  }
}
