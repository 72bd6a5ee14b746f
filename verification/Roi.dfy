/** Fitting a region of interest into the picture. */
module Roi {
  import opened Options

  datatype Rect = Rect(x: int, y: int, w: int, h: int)

  /** `UPALIGNTO16`: the smallest multiple of 16 that is not below `v`. */
  function UpAlign16(v: int): (a: int)
    ensures a % 16 == 0 && v <= a < v + 16
  {
    (v + 15) / 16 * 16
  }

  /** `best` is below `wanted` by whole steps of 16 and ends before `limit` when it
      starts at `start`; one step more would not. */
  predicate LargestFit(start: int, wanted: int, limit: int, best: int) {
    && best <= wanted && (wanted - best) % 16 == 0 && start + best < limit
    && (best == wanted || start + best + 16 >= limit)
  }

  /** So it is the largest length of its kind that fits. */
  lemma LargestFitIsLargest(start: int, wanted: int, limit: int, best: int, l: int)
    requires LargestFit(start, wanted, limit, best)
    requires l <= wanted && (wanted - l) % 16 == 0 && start + l < limit
    ensures l <= best
  {
  }

  /** One of the two shrink loops. */
  method Shrink(start: int, wanted: int, limit: int) returns (len: int)
    ensures LargestFit(start, wanted, limit, len)
  {
    len := wanted;
    while start + len >= limit
      invariant len <= wanted && (wanted - len) % 16 == 0
      invariant len == wanted || start + len + 16 >= limit
      decreases start + len - limit
    {
      len := len - 16;
    }
  }

  /** The rectangle part of `rk_roi_set_all`, from the scaled values on: align, shrink,
      and pass on only what has no negative field. */
  method FitRoi(wanted: Rect, width: int, height: int) returns (r: Option<Rect>)
    ensures r.Some? <==> UpAlign16(wanted.x) >= 0 && UpAlign16(wanted.y) >= 0
                         && UpAlign16(wanted.w) >= 0 && UpAlign16(wanted.h) >= 0
                         && UpAlign16(wanted.x) < width && UpAlign16(wanted.y) < height
    ensures r.Some? ==> var q := r.value;
                        && q.x == UpAlign16(wanted.x) && q.y == UpAlign16(wanted.y)
                        && q.x % 16 == 0 && q.y % 16 == 0 && q.w % 16 == 0 && q.h % 16 == 0
                        && 0 <= q.x && 0 <= q.y && 0 <= q.w && 0 <= q.h
                        && LargestFit(q.x, UpAlign16(wanted.w), width, q.w)
                        && LargestFit(q.y, UpAlign16(wanted.h), height, q.h)
  {
    var x, y := UpAlign16(wanted.x), UpAlign16(wanted.y);
    var w := Shrink(x, UpAlign16(wanted.w), width);
    var h := Shrink(y, UpAlign16(wanted.h), height);
    if x < 0 || y < 0 || w < 0 || h < 0 {
      return None;
    }
    return Some(Rect(x, y, w, h));
  }
}
