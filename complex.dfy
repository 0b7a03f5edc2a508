/** Complex numbers as pairs of reals: the part of std::complex<double> that the
    pole and zero computations use (sum, difference, product, real scaling and
    the squared modulus). */
module Complex {

  datatype Complex = Complex(re: real, im: real)

  /** A real number seen as a complex number with zero imaginary part. */
  function Real(x: real): Complex
  {
    Complex(x, 0.0)
  }

  function Add(z: Complex, w: Complex): Complex
  {
    Complex(z.re + w.re, z.im + w.im)
  }

  function Sub(z: Complex, w: Complex): Complex
  {
    Complex(z.re - w.re, z.im - w.im)
  }

  function Mul(z: Complex, w: Complex): Complex
  {
    Complex(z.re * w.re - z.im * w.im, z.re * w.im + z.im * w.re)
  }

  /** Multiplication by a real scalar, as in `0.5 * z`. */
  function Scale(k: real, z: Complex): Complex
  {
    Complex(k * z.re, k * z.im)
  }

  /** Division by a non-zero real, as in `z / b0`. */
  function DivReal(z: Complex, k: real): Complex
    requires k != 0.0
  {
    Complex(z.re / k, z.im / k)
  }

  /** The square of the modulus; |z| < 1 exactly when NormSq(z) < 1. */
  function NormSq(z: Complex): real
  {
    z.re * z.re + z.im * z.im
  }
}
