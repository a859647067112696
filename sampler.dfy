/**
 * The frame sampler of the emotion analysis: how the sampling interval is
 * derived from the declared frame rate, Python's `%` on integers, and the
 * indices of the frames the scan hands to the detector.
 */
module Sampler {

  function Abs(x: int): (r: nat)
    ensures r == x || r == -x
  {
    if x < 0 then -x else x
  }

  /**
   * The number of frames between two sampled frames: two seconds' worth at
   * the truncated declared rate `fps`, where a rate that truncates to 0
   * falls back to 30 (`int(fps) or 30`). There is no floor at 1: a negative
   * rate gives a negative interval, but never a zero one.
   */
  function FrameInterval(fps: int): (k: int)
    ensures k != 0 && Abs(k) >= 2
    ensures fps == 0 ==> k == 60
    ensures fps != 0 ==> k == 2 * fps
  {
    var rate := if fps == 0 then 30 else fps;
    rate * 2
  }

  /**
   * Python's `a % b`: the remainder of floored division, which has the sign
   * of the divisor `b`.
   */
  function PyMod(a: int, b: int): (r: int)
    requires b != 0
    ensures b > 0 ==> 0 <= r < b
    ensures b < 0 ==> b < r <= 0
    ensures r == 0 <==> a % Abs(b) == 0
    ensures (a - r) % Abs(b) == 0
  {
    var m := Abs(b);
    var e := a % m;
    var q := a / m;
    assert a - e == q * m;
    if b < 0 && e != 0 then
      DivOfMultiplePlus(q + 1, m, 0);
      assert a - (e - m) == (q + 1) * m;
      e - m
    else
      DivOfMultiplePlus(q, m, 0);
      e
  }

  /**
   * The indices below `n` whose frames the scan sends to the detector, in
   * the order the scan reaches them: those where `index % k == 0`.
   */
  function Sampled(n: nat, k: int): (s: seq<nat>)
    requires k != 0
    ensures forall i :: i in s <==> 0 <= i < n && PyMod(i, k) == 0
    ensures forall j :: 0 <= j < |s| ==> s[j] < n
    ensures forall j, j' :: 0 <= j < j' < |s| ==> s[j] < s[j']
  {
    if n == 0 then []
    else Sampled(n - 1, k) + (if PyMod(n - 1, k) == 0 then [n - 1] else [])
  }

  /** Euclidean division of `q * m + t` by `m` when `0 <= t < m`. */
  lemma DivOfMultiplePlus(q: int, m: int, t: int)
    requires m > 0 && 0 <= t < m
    ensures (q * m + t) / m == q
    ensures (q * m + t) % m == t
  {
    var a := q * m + t;
    var d := a / m;
    assert a == d * m + a % m;
    assert (q - d) * m == a % m - t;
    if q - d >= 1 {
      assert false;
    } else if q - d <= -1 {
      assert false;
    }
  }

  /**
   * The ceiling `(n + m - 1) / m` grows by one exactly when `n` itself is a
   * multiple of `m`, and then `n` is the old ceiling times `m`.
   */
  lemma CeilStep(n: nat, m: int)
    requires m > 0
    ensures n % m == 0 ==> (n + 1 + m - 1) / m == (n + m - 1) / m + 1 && n == ((n + m - 1) / m) * m
    ensures n % m != 0 ==> (n + 1 + m - 1) / m == (n + m - 1) / m
  {
    var q, r := n / m, n % m;
    assert n == q * m + r;
    DivOfMultiplePlus(q + 1, m, r);
    assert n + m == (q + 1) * m + r;
    if r == 0 {
      DivOfMultiplePlus(q, m, m - 1);
      assert n + m - 1 == q * m + (m - 1);
    } else {
      DivOfMultiplePlus(q + 1, m, r - 1);
      assert n + m - 1 == (q + 1) * m + (r - 1);
    }
  }

  /**
   * The sampled indices below `n` are exactly `0, |k|, 2|k|, ...`: there are
   * ceil(n / |k|) of them, the j-th being `j * |k|`.
   */
  lemma {:induction false} SampledClosedForm(n: nat, k: int)
    requires k != 0
    ensures |Sampled(n, k)| == (n + Abs(k) - 1) / Abs(k)
    ensures forall j :: 0 <= j < |Sampled(n, k)| ==> Sampled(n, k)[j] == j * Abs(k)
  {
    var m := Abs(k);
    if n == 0 {
      DivOfMultiplePlus(0, m, m - 1);
    } else {
      var i := n - 1;
      SampledClosedForm(i, k);
      CeilStep(i, m);
      var prev := Sampled(i, k);
      assert PyMod(i, k) == 0 <==> i % m == 0;
      if i % m == 0 {
        var s := Sampled(n, k);
        assert s == prev + [i];
        assert i == |prev| * m;
        forall j | 0 <= j < |s|
          ensures s[j] == j * m
        {
          if j < |prev| {
            assert s[j] == prev[j];
          }
        }
      } else {
        assert Sampled(n, k) == prev;
      }
    }
  }

  /**
   * A video of 241 to 300 frames (up to ten seconds) at 30 frames per second
   * is sampled at frames 0, 60, 120, 180 and 240.
   */
  lemma SampledAtThirtyFps(n: nat)
    requires 240 < n <= 300
    ensures Sampled(n, FrameInterval(30)) == [0, 60, 120, 180, 240]
  {
    var k := FrameInterval(30);
    SampledClosedForm(n, k);
    DivOfMultiplePlus(5, 60, n - 241);
    var s := Sampled(n, k);
    assert |s| == 5;
    assert s[1] == 1 * 60;
    assert s[2] == 2 * 60;
    assert s[3] == 3 * 60;
    assert s[4] == 4 * 60;
  }
}
