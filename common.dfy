/** Shared vocabulary of the model: optional values, results with an error,
    bytes, and the HTTP-style errors the service raises. */
module Common {

  datatype Option<+T> = None | Some(value: T) {
    function GetOr(default: T): T {
      match this
      case Some(v) => v
      case None => default
    }
  }

  datatype Result<+T, +E> = Ok(value: T) | Err(error: E)

  /** An octet, as Python's `bytes` holds them. */
  type Byte = x: int | 0 <= x < 256

  type Bytes = seq<Byte>

  /** An exception the handler turns into an HTTP status code. */
  datatype HttpError = HttpError(status: int, detail: string)

  /** The answer of the web framework to an exception the handler does not
      catch. */
  const InternalServerError := HttpError(500, "Internal Server Error")

  /** The outcome of a guard that returns True or raises an HTTP error. */
  datatype Check = Pass | Fail(error: HttpError)

  /** Python truthiness of an optional integer: None and 0 are false. */
  predicate IntTruthy(v: Option<int>) {
    v.Some? && v.value != 0
  }

  /** Python truthiness of an optional string: None and "" are false. */
  predicate StrTruthy(v: Option<string>) {
    v.Some? && v.value != ""
  }

  /** 256 to the power `len`: the bound of an unsigned `len`-byte integer. */
  function Pow256(len: nat): (r: nat)
    ensures r > 0
  {
    if len == 0 then 1 else 256 * Pow256(len - 1)
  }

  /** `n.to_bytes(len, 'big')`. */
  function BigEndian(n: nat, len: nat): (r: Bytes)
    requires n < Pow256(len)
    ensures |r| == len
  {
    if len == 0 then [] else BigEndian(n / 256, len - 1) + [n % 256]
  }

  /** `int.from_bytes(b, 'big')`. */
  function FromBigEndian(b: Bytes): (n: nat)
    ensures n < Pow256(|b|)
  {
    if |b| == 0 then 0 else FromBigEndian(b[..|b| - 1]) * 256 + b[|b| - 1]
  }

  /** Reading the bytes back gives the integer. */
  lemma {:induction false} FromToBigEndian(n: nat, len: nat)
    requires n < Pow256(len)
    ensures FromBigEndian(BigEndian(n, len)) == n
  {
    if len > 0 {
      FromToBigEndian(n / 256, len - 1);
      var b := BigEndian(n, len);
      assert b[..len - 1] == BigEndian(n / 256, len - 1);
    }
  }
}
