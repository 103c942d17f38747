/** The pagination arithmetic every feed handler repeats: the coercion of the
    `page` and `limit` query parameters, `skip = (page - 1) * limit`, the
    window `.skip(skip).limit(limit)` selects, and
    `totalPages = Math.ceil(total / limit)`. */
module Pagination {
  import opened Common
  import opened Js

  /** `parseInt(param) || fallback`: NaN and 0 are both falsy, so both give
      way to the fallback; every other number, negative ones included, is
      kept. An absent parameter is `parseInt(undefined)`, which is NaN. */
  function IntParam(param: Option<string>, fallback: int): (n: int)
    ensures param.None? ==> n == fallback
    ensures fallback != 0 ==> n != 0
  {
    if param.None? then fallback
    else
      match ParseInt(param.value)
      case NaN => fallback
      case Num(v) => if v == 0 then fallback else v
  }

  /** A parameter holding a printed integer (white space before it, any
      non-digit text after it) is read as that integer, unless the integer
      is 0, which is replaced by the fallback. Negative values pass. */
  lemma IntParamOfNumber(pad: string, k: int, tail: string, fallback: int)
    requires AllSpace(pad)
    requires tail == [] || (DigitValue(tail[0]) >= 10 && tail[0] != 'x' && tail[0] != 'X')
    ensures IntParam(Some(pad + IntString(k) + tail), fallback) == if k == 0 then fallback else k
  {
    ParseIntOfIntString(pad, k, tail);
  }

  /** A parameter in which `parseInt` finds no digit gives the fallback. */
  lemma IntParamNotNumeric(s: string, fallback: int)
    requires ParseInt(s).NaN?
    ensures IntParam(Some(s), fallback) == fallback
  {
  }

  /** The number of documents `.skip()` passes over for a page. */
  function Skip(page: int, limit: int): int {
    (page - 1) * limit
  }

  /** `Math.ceil(a / b)` for a non-zero divisor, in exact arithmetic. */
  function CeilDiv(a: int, b: int): (q: int)
    requires b != 0
    ensures b > 0 ==> (q - 1) * b < a <= q * b
    ensures b < 0 ==> q * b <= a < (q - 1) * b
  {
    if b > 0 then
      var f := (-a) / b;
      assert -a == f * b + (-a) % b;
      -f
    else
      var f := a / (-b);
      assert a == f * (-b) + a % (-b);
      -f
  }

  /** `.skip(skip).limit(count)` over a listing: the `count` entries that
      follow the first `skip`, fewer at the end of the listing. */
  function Window<T>(s: seq<T>, skip: nat, count: nat): (w: seq<T>)
    ensures |w| == if skip >= |s| then 0 else Min(count, |s| - skip)
    ensures forall i :: 0 <= i < |w| ==> w[i] == s[skip + i]
  {
    if skip >= |s| then [] else s[skip..skip + Min(count, |s| - skip)]
  }

  /** With a positive limit, entry `k` of the listing is shown on page
      `k / limit + 1`, which lies between 1 and `totalPages`, at slot
      `k % limit`. */
  lemma PageOfEntry<T>(s: seq<T>, limit: nat, k: nat)
    requires limit > 0 && k < |s|
    ensures var p := k / limit + 1;
      && 1 <= p <= CeilDiv(|s|, limit)
      && k % limit < |Window(s, Skip(p, limit), limit)|
      && Window(s, Skip(p, limit), limit)[k % limit] == s[k]
  {
    var p := k / limit + 1;
    var q := CeilDiv(|s|, limit);
    assert k == (k / limit) * limit + k % limit;
    assert Skip(p, limit) == (k / limit) * limit;
    assert (p - 1) * limit <= k < |s| <= q * limit;
    MulCancel(p - 1, q, limit);
  }

  lemma MulCancel(a: int, b: int, c: int)
    requires c > 0 && a * c < b * c
    ensures a < b
  {
  }

  /** Pages past `totalPages` are empty. */
  lemma PageBeyondLast<T>(s: seq<T>, limit: nat, p: int)
    requires limit > 0 && p > CeilDiv(|s|, limit)
    ensures Window(s, Skip(p, limit), limit) == []
  {
    var q := CeilDiv(|s|, limit);
    assert |s| <= q * limit;
    assert q * limit <= (p - 1) * limit;
  }
}
