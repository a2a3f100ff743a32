/** Curve forms used by the performance model and the IP-to-SI coefficient
    transform. A biquadratic in (x, y) is
      c + x*X + xx*X^2 + y*Y + yy*Y^2 + xy*X*Y
    with X the indoor and Y the outdoor temperature; a quadratic is
      c + x*X + xx*X^2
    with X a flow fraction or part-load ratio. */
module Curves {

  datatype Biquad = Biquad(c: real, x: real, xx: real, y: real, yy: real, xy: real)

  datatype Quad = Quad(c: real, x: real, xx: real)

  function Biquadratic(x: real, y: real, b: Biquad): real {
    b.c + b.x * x + b.xx * x * x + b.y * y + b.yy * y * y + b.xy * x * y
  }

  function Quadratic(x: real, q: Quad): real {
    q.c + q.x * x + q.xx * x * x
  }

  /** Converts a biquadratic whose inputs are in degrees F into one whose
      inputs are in degrees C: evaluating the result at (X, Y) in C gives the
      same value as evaluating the original at the same temperatures in F. */
  function ConvertCurveBiquadratic(ip: Biquad): (si: Biquad)
    ensures forall X: real, Y: real ::
      Biquadratic(X, Y, si) == Biquadratic(1.8 * X + 32.0, 1.8 * Y + 32.0, ip)
  {
    var si := Biquad(
      ip.c + 32.0 * (ip.x + ip.y) + 1024.0 * (ip.xx + ip.yy + ip.xy),
      9.0 / 5.0 * ip.x + 576.0 / 5.0 * ip.xx + 288.0 / 5.0 * ip.xy,
      81.0 / 25.0 * ip.xx,
      9.0 / 5.0 * ip.y + 576.0 / 5.0 * ip.yy + 288.0 / 5.0 * ip.xy,
      81.0 / 25.0 * ip.yy,
      81.0 / 25.0 * ip.xy);
    assert forall X: real, Y: real ::
      Biquadratic(X, Y, si) == Biquadratic(1.8 * X + 32.0, 1.8 * Y + 32.0, ip) by {
      forall X: real, Y: real
        ensures Biquadratic(X, Y, si) == Biquadratic(1.8 * X + 32.0, 1.8 * Y + 32.0, ip)
      {
        ConvertPointwise(ip, si, X, Y);
      }
    }
    si
  }

  lemma ConvertPointwise(ip: Biquad, si: Biquad, X: real, Y: real)
    requires si.c == ip.c + 32.0 * (ip.x + ip.y) + 1024.0 * (ip.xx + ip.yy + ip.xy)
    requires si.x == 9.0 / 5.0 * ip.x + 576.0 / 5.0 * ip.xx + 288.0 / 5.0 * ip.xy
    requires si.xx == 81.0 / 25.0 * ip.xx
    requires si.y == 9.0 / 5.0 * ip.y + 576.0 / 5.0 * ip.yy + 288.0 / 5.0 * ip.xy
    requires si.yy == 81.0 / 25.0 * ip.yy
    requires si.xy == 81.0 / 25.0 * ip.xy
    ensures Biquadratic(X, Y, si) == Biquadratic(1.8 * X + 32.0, 1.8 * Y + 32.0, ip)
  {
    var XF := 1.8 * X + 32.0;
    var YF := 1.8 * Y + 32.0;
    assert XF * XF == 3.24 * X * X + 115.2 * X + 1024.0;
    assert YF * YF == 3.24 * Y * Y + 115.2 * Y + 1024.0;
    assert XF * YF == 3.24 * X * Y + 57.6 * X + 57.6 * Y + 1024.0;
  }
}
