/** Planar distances between positions in degrees, and how they add up along a track. */
module Geometry {

  datatype Position = Position(lat: real, lon: real, time: real)

  function Dist2(p: Position, q: Position): real {
    (q.lat - p.lat) * (q.lat - p.lat) + (q.lon - p.lon) * (q.lon - p.lon)
  }

  lemma Square(x: real)
    ensures x * x >= 0.0
  {
  }

  lemma SquareMonotone(x: real, y: real)
    requires 0.0 <= x <= y
    ensures x * x <= y * y
  {
  }

  lemma SquareStrict(x: real, y: real)
    requires 0.0 <= y < x
    ensures y * y < x * x
  {
    assert x * (x - y) > 0.0;
    assert y * (x - y) >= 0.0;
  }

  lemma SquareCancel(x: real, y: real)
    requires y >= 0.0 && x * x <= y * y
    ensures x <= y
  {
    if x > y {
      SquareStrict(x, y);
    }
  }

  lemma ProductMonotone(a: real, b: real, c: real, d: real)
    requires 0.0 <= a <= c && 0.0 <= b <= d
    ensures a * b <= c * d
  {
    assert a * b <= c * b <= c * d;
  }

  /** (a c + b d)^2 <= (a^2 + b^2)(c^2 + d^2) */
  lemma CauchySchwarz(a: real, b: real, c: real, d: real)
    ensures (a * c + b * d) * (a * c + b * d) <= (a * a + b * b) * (c * c + d * d)
  {
    var x, y := a * d, b * c;
    Square(x - y);
    assert (a * a + b * b) * (c * c + d * d) - (a * c + b * d) * (a * c + b * d) == (x - y) * (x - y);
  }

  lemma ProductOfSquares(r: real, s: real)
    ensures (r * r) * (s * s) == (r * s) * (r * s)
  {
  }

  lemma VectorSum(a: real, b: real, c: real, d: real, r: real, s: real)
    requires r >= 0.0 && s >= 0.0
    requires a * a + b * b <= r * r && c * c + d * d <= s * s
    ensures (a + c) * (a + c) + (b + d) * (b + d) <= (r + s) * (r + s)
  {
    var dot := a * c + b * d;
    CauchySchwarz(a, b, c, d);
    Square(a); Square(b); Square(c); Square(d);
    ProductMonotone(a * a + b * b, c * c + d * d, r * r, s * s);
    ProductOfSquares(r, s);
    ProductMonotone(0.0, 0.0, r, s);
    SquareCancel(dot, r * s);
    SumOfSquares(a, c);
    SumOfSquares(b, d);
    SumOfSquares(r, s);
  }

  lemma SumOfSquares(x: real, y: real)
    ensures (x + y) * (x + y) == x * x + 2.0 * (x * y) + y * y
  {
  }

  lemma Triangle(p: Position, q: Position, o: Position, r: real, s: real)
    requires r >= 0.0 && s >= 0.0 && Dist2(p, q) <= r * r && Dist2(q, o) <= s * s
    ensures Dist2(p, o) <= (r + s) * (r + s)
  {
    VectorSum(q.lat - p.lat, q.lon - p.lon, o.lat - q.lat, o.lon - q.lon, r, s);
  }

  lemma DistSelf(p: Position)
    ensures Dist2(p, p) == 0.0
  {
  }

  /** q follows p within the distance allowed for the time between them. */
  predicate Hop(limit: real -> real, p: Position, q: Position) {
    var allowed := limit(q.time - p.time);
    allowed >= 0.0 && Dist2(p, q) <= allowed * allowed
  }

  predicate Track(limit: real -> real, track: seq<Position>) {
    |track| < 2 ||
    (Track(limit, track[..|track| - 1]) && Hop(limit, track[|track| - 2], track[|track| - 1]))
  }

  /** The lengths allowed between consecutive positions of a track, added up. */
  function Allowance(limit: real -> real, track: seq<Position>): real {
    if |track| < 2 then 0.0
    else Allowance(limit, track[..|track| - 1]) + limit(track[|track| - 1].time - track[|track| - 2].time)
  }

  /** From the first to the last position of a track is at most the sum of its hops. */
  lemma {:induction false} TrackLength(limit: real -> real, track: seq<Position>)
    requires |track| > 0 && Track(limit, track)
    ensures Allowance(limit, track) >= 0.0
    ensures Dist2(track[0], track[|track| - 1]) <= Allowance(limit, track) * Allowance(limit, track)
  {
    DistSelf(track[0]);
    if |track| > 1 {
      var front, p, q := track[..|track| - 1], track[|track| - 2], track[|track| - 1];
      TrackLength(limit, front);
      hide Dist2;
      Triangle(track[0], p, q, Allowance(limit, front), limit(q.time - p.time));
    }
  }

  lemma TrackExtend(limit: real -> real, track: seq<Position>, q: Position)
    requires Track(limit, track)
    requires track != [] ==> Hop(limit, track[|track| - 1], q)
    ensures Track(limit, track + [q])
  {
    assert (track + [q])[..|track|] == track;
  }

  lemma {:induction false} SubTrack(limit: real -> real, track: seq<Position>, i: nat, j: nat)
    requires i <= j <= |track| && Track(limit, track)
    ensures Track(limit, track[i..j])
    decreases |track|
  {
    if j < |track| {
      SubTrack(limit, track[..|track| - 1], i, j);
      assert track[..|track| - 1][i..j] == track[i..j];
    } else if j - i >= 2 {
      SubTrack(limit, track[..j - 1], i, j - 1);
      assert track[..j - 1][i..j - 1] == track[i..j][..j - i - 1];
    }
  }
}
