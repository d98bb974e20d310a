/// What both annotation loops share: the row width, the image transform,
/// the configuration a run depends on, and the backward cursor move.
module Session {
  import opened Labels

  /** An encoded image as loaded from the dataset file. */
  type Blob = seq<bv8>

  /** A flattened HSV image as a row of signed bytes. */
  type Row = seq<int8>

  /** Python 2's `/` on integers: division rounded toward minus infinity. */
  function FloorDiv(a: int, b: int): (q: int)
    requires b != 0
    ensures b > 0 ==> b * q <= a < b * q + b
    ensures b < 0 ==> b * q + b < a <= b * q
  {
    if b > 0 then a / b else (-a) / (-b)
  }

  /** The row width `w*h/s/s*c`, evaluated left to right with floor division.
      When the scale divides both dimensions it is the byte count of the
      image resized to `w/s` by `h/s` in `c` channels. */
  function RowSize(w: int, h: int, s: int, c: int): (r: int)
    requires s != 0
    ensures s > 0 && w % s == 0 && h % s == 0 ==> r == (w / s) * (h / s) * c
  {
    if s > 0 && w % s == 0 && h % s == 0 then
      ExactQuotient(w / s * (h / s) * s, s);
      ExactQuotient(w / s * (h / s), s);
      assert w * h == (w / s * (h / s) * s) * s by {
        assert w == w / s * s && h == h / s * s;
      }
      FloorDiv(FloorDiv(w * h, s), s) * c
    else
      FloorDiv(FloorDiv(w * h, s), s) * c
  }

  /** Dividing an exact multiple gives back the factor. */
  lemma ExactQuotient(x: int, s: int)
    requires s > 0
    ensures FloorDiv(x * s, s) == x
  {
  }

  /** With the accepted dimensions and the default scale and channel count a
      row holds 77040 bytes: a 214 by 120 image in three channels. */
  lemma DefaultRowSize()
    ensures RowSize(856, 480, 4, 3) == 214 * 120 * 3 == 77040
  {
    assert FloorDiv(856 * 480, 4) == 102720;
    assert FloorDiv(102720, 4) == 25680;
  }

  /** The transformed row of every image, in order. */
  function Frames(images: seq<Blob>, transform: Blob -> Row): (r: seq<Row>)
    ensures |r| == |images|
  {
    seq(|images|, k requires 0 <= k < |images| => transform(images[k]))
  }

  /** What a run depends on besides the keys: the transformed image rows,
      the configured action count, and the action codes. */
  datatype Env = Env(frames: seq<Row>, numActions: int, code: Action -> int8)

  /** A code that the key-to-label rule can write under `env`. */
  ghost predicate Producible(env: Env, c: int8) {
    exists a :: Allowed(a, env.numActions) && env.code(a) == c
  }

  /** The cursor after a backward move: one step back, never below 0. */
  function Back(i: nat): (b: nat)
    ensures b <= i && (b == i <==> i == 0) && (i > 0 ==> b + 1 == i)
  {
    if i > 0 then i - 1 else 0
  }
}
