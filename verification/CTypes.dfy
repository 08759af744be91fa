/** C data as it appears in the tracer: fixed-width integers and NUL-terminated byte buffers.
    A byte of C memory is a `char`; buffers are strings whose length is the size of the object. */
module CTypes {

  datatype Option<+T> = None | Some(value: T)

  const NUL: char := '\0'

  const TWO32 := 0x1_0000_0000
  const TWO64 := 0x1_0000_0000_0000_0000

  type U32 = x: int | 0 <= x < 0x1_0000_0000
  type U64 = x: int | 0 <= x < 0x1_0000_0000_0000_0000
  type I32 = x: int | -0x8000_0000 <= x < 0x8000_0000
  type I64 = x: int | -0x8000_0000_0000_0000 <= x < 0x8000_0000_0000_0000

  lemma NoWrap(n: nat)
    requires n < TWO64
    ensures n % TWO64 == n
  {
  }

  /** The conversion `(int)x` of a wider or unsigned value: the low 32 bits in two's complement. */
  function ToI32(x: int): (r: I32)
    ensures (r - x) % TWO32 == 0
  {
    var low := x % TWO32;
    if low < 0x8000_0000 then low else low - TWO32
  }

  /** What `%s` prints and `strlen` measures: the bytes before the first NUL, or the whole object. */
  function CString(buf: string): (r: string)
    ensures |r| <= |buf| && r == buf[..|r|]
    ensures NUL !in r
    ensures |r| < |buf| ==> buf[|r|] == NUL
  {
    if buf == [] || buf[0] == NUL then []
    else
      var rest := CString(buf[1..]);
      assert buf[..|rest| + 1] == [buf[0]] + rest;
      [buf[0]] + rest
  }

  function Zeros(n: nat): (r: string)
    ensures |r| == n && forall i :: 0 <= i < n ==> r[i] == NUL
  {
    seq(n, _ => NUL)
  }

  /** A NUL-free text followed by a NUL, or filling its buffer, is the C string of that buffer. */
  lemma {:induction false} CStringIs(buf: string, n: nat)
    requires n <= |buf| && NUL !in buf[..n]
    requires n < |buf| ==> buf[n] == NUL
    ensures CString(buf) == buf[..n]
    decreases n
  {
    if n > 0 {
      assert buf[0] == buf[..n][0] && buf[1..][..n - 1] == buf[..n][1..];
      CStringIs(buf[1..], n - 1);
    }
  }

  lemma Associate(x: string, y: string, z: string)
    ensures x + (y + z) == (x + y) + z
  {
  }

  /** `snprintf(buf, size, ...)` keeps at most size - 1 bytes of its output. */
  function Snprintf(size: nat, text: string): (r: string)
    requires 0 < size
    ensures |r| <= |text| && r == text[..|r|] && |r| < size && (|r| < size - 1 ==> r == text)
  {
    if |text| < size then text else text[..size - 1]
  }
}
