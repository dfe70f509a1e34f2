/** How the fuzz targets choose a configuration from the bytes of an input. */
module FuzzSelectors {
  import opened Results

  type Byte = b: int | 0 <= b < 256

  type Bytes = seq<Byte>

  function Sum(bytes: Bytes): nat
  {
    if bytes == [] then 0 else Sum(bytes[..|bytes| - 1]) + bytes[|bytes| - 1]
  }

  /** The targets fold with wrapping addition on a machine word of the given size. */
  function Selector(bytes: Bytes, word: nat): nat
    requires word > 0
  {
    if bytes == [] then 0 else (Selector(bytes[..|bytes| - 1], word) + bytes[|bytes| - 1]) % word
  }

  lemma {:induction false} SumIsBounded(bytes: Bytes)
    ensures Sum(bytes) <= 255 * |bytes|
  {
    if bytes == [] {
    } else {
      SumIsBounded(bytes[..|bytes| - 1]);
    }
  }

  lemma {:induction false} MulOrder(a: int, b: int, n: nat)
    requires a < b
    ensures a * n + n <= b * n
    decreases b - a
  {
    if a + 1 == b {
    } else {
      MulOrder(a, b - 1, n);
    }
  }

  lemma ModIsRemainder(q: int, r: int, n: nat)
    requires 0 <= r < n
    ensures (q * n + r) % n == r && (q * n + r) / n == q
  {
    var x := q * n + r;
    var p := x / n;
    assert x == p * n + x % n;
    if p < q {
      MulOrder(p, q, n);
    } else if q < p {
      MulOrder(q, p, n);
    }
  }

  lemma {:induction false} SelectorIsSum(bytes: Bytes, word: nat)
    requires 255 * |bytes| < word
    ensures Selector(bytes, word) == Sum(bytes)
  {
    if bytes == [] {
    } else {
      SelectorIsSum(bytes[..|bytes| - 1], word);
      SumIsBounded(bytes);
      ModIsRemainder(0, Sum(bytes), word);
    }
  }

  lemma {:induction false} SumConcatenates(a: Bytes, b: Bytes)
    ensures Sum(a + b) == Sum(a) + Sum(b)
  {
    if b == [] {
      assert a + b == a;
    } else {
      assert (a + b)[..|a + b| - 1] == a + b[..|b| - 1];
      SumConcatenates(a, b[..|b| - 1]);
    }
  }

  function Repeat(b: Byte, n: nat): Bytes
  {
    seq(n, _ => b)
  }

  lemma {:induction false} SumRepeats(b: Byte, n: nat)
    ensures Sum(Repeat(b, n)) == b * n
  {
    if n == 0 {
    } else {
      assert Repeat(b, n)[..n - 1] == Repeat(b, n - 1);
      SumRepeats(b, n - 1);
    }
  }

  /** Compiler profile and language mode. */
  function Indices(bytes: Bytes, profiles: nat, word: nat): (int, int)
    requires profiles > 0 && word > 0
  {
    var sum := Selector(bytes, word);
    (sum % profiles, sum / 256 % 8)
  }

  datatype Flavor = StdC11 | GnuC11 | ClangC11 | GnuC11WithClangExtensions

  datatype Standard = C90 | C99 | C11 | C17

  datatype ParserConfig = ParserConfig(flavor: Flavor, standard: Standard, gnuKeywords: bool, extensionsMsvc: bool)

  function ParserConfigOf(selector: nat): ParserConfig
  {
    ParserConfig(
      [StdC11, GnuC11, ClangC11, GnuC11WithClangExtensions][selector % 4],
      [C90, C99, C11, C17][selector / 4 % 4],
      selector / 16 % 2 != 0,
      selector / 32 % 2 != 0)
  }

  datatype Dialect = Gnu | Clang

  datatype Redefinition = Strict | RecordAndReplace

  datatype LineComments = Enabled | GnuC90 | GnuC90Preprocessing | ClangC90 | ClangC90Preprocessing

  datatype PreprocessorConfig = PreprocessorConfig(
    recordMacroDefinitions: bool,
    documentation: Option<bool>,
    redefinition: Redefinition,
    queries: Dialect,
    trigraphs: bool,
    scopePunctuator: bool,
    lineComments: LineComments)

  function PreprocessorConfigOf(selector: nat): PreprocessorConfig
  {
    PreprocessorConfig(
      selector / 4 % 2 != 0,
      if selector / 16 % 4 == 0 then None else Some(selector / 16 % 4 >= 2),
      if selector / 8 % 2 == 0 then Strict else RecordAndReplace,
      if selector % 2 == 0 then Gnu else Clang,
      selector / 256 % 2 != 0,
      selector / 2 % 2 != 0,
      [Enabled, GnuC90, GnuC90Preprocessing, ClangC90, ClangC90Preprocessing][selector / 512 % 5])
  }
}
