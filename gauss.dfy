/** The two-dimensional Gaussian beam profile: pdf, volume and normalisation. */
module Gauss {
  import opened NumPy

  /** np.pi as a double. */
  const Pi: real := 3.141592653589793

  /** gauss_2d_norm: the amplitude whose Gaussian encloses volume `amplitude`. */
  function Norm(amplitude: real, sigmaX: real, sigmaY: real): real
    requires sigmaX > 0.0 && sigmaY > 0.0
  {
    amplitude / (2.0 * Pi * sigmaX * sigmaY)
  }

  /** gauss_2d_volume: the volume under a Gaussian of the given amplitude. */
  function Volume(amplitude: real, sigmaX: real, sigmaY: real): real {
    2.0 * Pi * amplitude * sigmaX * sigmaY
  }

  /** Normalising and then taking the volume gives back the amplitude. */
  lemma VolumeOfNorm(amplitude: real, sigmaX: real, sigmaY: real)
    requires sigmaX > 0.0 && sigmaY > 0.0
    ensures Volume(Norm(amplitude, sigmaX, sigmaY), sigmaX, sigmaY) == amplitude
  {
    var c := 2.0 * Pi * sigmaX * sigmaY;
    assert c > 0.0;
    assert Volume(Norm(amplitude, sigmaX, sigmaY), sigmaX, sigmaY) == (amplitude / c) * c;
  }

  /** Taking the volume and then normalising gives back the amplitude. */
  lemma NormOfVolume(amplitude: real, sigmaX: real, sigmaY: real)
    requires sigmaX > 0.0 && sigmaY > 0.0
    ensures Norm(Volume(amplitude, sigmaX, sigmaY), sigmaX, sigmaY) == amplitude
  {
    var c := 2.0 * Pi * sigmaX * sigmaY;
    assert c > 0.0;
    assert Volume(amplitude, sigmaX, sigmaY) == amplitude * c;
  }

  /** The exponent -1/2 ((x-mu_x)/sigma_x)^2 + ((y-mu_y)/sigma_y)^2). */
  function Exponent(x: real, y: real, muX: real, muY: real, sigmaX: real, sigmaY: real): real
    requires sigmaX > 0.0 && sigmaY > 0.0
  {
    -0.5 * (Sq((x - muX) / sigmaX) + Sq((y - muY) / sigmaY))
  }

  /**
   * gauss_2d_pdf. As in the source, the amplitude is divided by 2 pi sigma_x sigma_y
   * when `normalized` is FALSE and used as it is when `normalized` is true.
   */
  function Pdf(nm: Numerics, x: real, y: real, muX: real, muY: real,
               sigmaX: real, sigmaY: real, amplitude: real, normalized: bool): real
    requires sigmaX > 0.0 && sigmaY > 0.0
  {
    var normAmplitude := if normalized then amplitude else Norm(amplitude, sigmaX, sigmaY);
    normAmplitude * Exp(nm, Exponent(x, y, muX, muY, sigmaX, sigmaY))
  }

  /** The density has the sign of its amplitude, as exp is positive. */
  lemma PdfSign(nm: Numerics, x: real, y: real, muX: real, muY: real,
                sigmaX: real, sigmaY: real, amplitude: real, normalized: bool)
    requires sigmaX > 0.0 && sigmaY > 0.0 && ValidNumerics(nm)
    ensures amplitude > 0.0 <==> Pdf(nm, x, y, muX, muY, sigmaX, sigmaY, amplitude, normalized) > 0.0
    ensures amplitude == 0.0 <==> Pdf(nm, x, y, muX, muY, sigmaX, sigmaY, amplitude, normalized) == 0.0
    ensures amplitude < 0.0 <==> Pdf(nm, x, y, muX, muY, sigmaX, sigmaY, amplitude, normalized) < 0.0
  {
    var c := 2.0 * Pi * sigmaX * sigmaY;
    assert c > 0.0;
    var normAmplitude := if normalized then amplitude else Norm(amplitude, sigmaX, sigmaY);
    assert amplitude > 0.0 <==> normAmplitude > 0.0;
    assert amplitude < 0.0 <==> normAmplitude < 0.0;
    assert Exp(nm, Exponent(x, y, muX, muY, sigmaX, sigmaY)) > 0.0;
  }

  /** The profile is mirror-symmetric about its mean on each axis. */
  lemma PdfMirror(nm: Numerics, dx: real, dy: real, muX: real, muY: real,
                  sigmaX: real, sigmaY: real, amplitude: real, normalized: bool)
    requires sigmaX > 0.0 && sigmaY > 0.0
    ensures Pdf(nm, muX + dx, muY + dy, muX, muY, sigmaX, sigmaY, amplitude, normalized)
         == Pdf(nm, muX - dx, muY - dy, muX, muY, sigmaX, sigmaY, amplitude, normalized)
  {
    assert Sq((muX + dx - muX) / sigmaX) == Sq((muX - dx - muX) / sigmaX);
    assert Sq((muY + dy - muY) / sigmaY) == Sq((muY - dy - muY) / sigmaY);
  }

  /** The profile is largest at its mean when exp is increasing and the amplitude positive. */
  lemma PdfPeak(nm: Numerics, x: real, y: real, muX: real, muY: real,
                sigmaX: real, sigmaY: real, amplitude: real, normalized: bool)
    requires sigmaX > 0.0 && sigmaY > 0.0 && amplitude >= 0.0
    requires forall a, b :: a <= b ==> Exp(nm, a) <= Exp(nm, b)
    ensures Pdf(nm, x, y, muX, muY, sigmaX, sigmaY, amplitude, normalized)
         <= Pdf(nm, muX, muY, muX, muY, sigmaX, sigmaY, amplitude, normalized)
  {
    var normAmplitude := if normalized then amplitude else Norm(amplitude, sigmaX, sigmaY);
    assert normAmplitude >= 0.0;
    var e := Exponent(x, y, muX, muY, sigmaX, sigmaY);
    assert e <= 0.0;
    assert Exponent(muX, muY, muX, muY, sigmaX, sigmaY) == 0.0;
    assert Exp(nm, e) <= Exp(nm, 0.0);
    assert normAmplitude * Exp(nm, e) <= normAmplitude * Exp(nm, 0.0);
  }
}
