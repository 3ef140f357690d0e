/** A beer record as the store holds it. */
module Beers {

  /** `beerStyle` is unique in the store; the temperatures are the range the
      style is best served in. */
  datatype Beer = Beer(beerStyle: string, minTemp: real, maxTemp: real)

  function Abs(x: real): (r: real)
    ensures r >= 0.0 && (r == x || r == -x)
  {
    if x < 0.0 then -x else x
  }

  /** The midpoint of the beer's serving range. */
  function Midpoint(b: Beer): (m: real)
    ensures m + m == b.minTemp + b.maxTemp
    ensures b.minTemp <= b.maxTemp ==> b.minTemp <= m <= b.maxTemp
  {
    (b.minTemp + b.maxTemp) / 2.0
  }

  /** Distance from the midpoint of the serving range to the temperature `t`. */
  function Dist(b: Beer, t: real): (d: real)
    ensures d >= 0.0
    ensures d == 0.0 <==> Midpoint(b) == t
    ensures InRange(b, t) ==> d + d <= b.maxTemp - b.minTemp
  {
    Abs(Midpoint(b) - t)
  }

  /** `t` lies in the beer's closed serving range. */
  predicate InRange(b: Beer, t: real)
  {
    b.minTemp <= t <= b.maxTemp
  }
}
