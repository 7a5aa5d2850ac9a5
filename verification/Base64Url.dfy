/** The URL-safe base64 alphabet without padding (sections 5 and 3.2 of RFC 4648). */
module Base64Url {
  import opened Wrappers

  type Byte = n: nat | n < 256
  type Sextet = n: nat | n < 64

  function Symbol(n: Sextet): char {
    if n < 26 then (65 + n) as char
    else if n < 52 then (71 + n) as char
    else if n < 62 then (n - 4) as char
    else if n == 62 then '-' else '_'
  }

  function SextetOf(c: char): Option<Sextet> {
    if 'A' <= c <= 'Z' then Some(c as int - 65)
    else if 'a' <= c <= 'z' then Some(c as int - 71)
    else if '0' <= c <= '9' then Some(c as int + 4)
    else if c == '-' then Some(62)
    else if c == '_' then Some(63)
    else None
  }

  /** The decoder skips line breaks wherever they stand. */
  function DropLineBreaks(s: string): string {
    if s == "" then ""
    else if s[0] == '\n' || s[0] == '\r' then DropLineBreaks(s[1..])
    else [s[0]] + DropLineBreaks(s[1..])
  }

  function Sextets(s: string): Option<seq<Sextet>> {
    if s == "" then Some([])
    else match (SextetOf(s[0]), Sextets(s[1..]))
      case (Some(x), Some(rest)) => Some([x] + rest)
      case _ => None
  }

  /** The three bytes of a quantum, each from the two symbols it straddles. */
  function First(a: Sextet, b: Sextet): Byte { a as int * 4 + b as int / 16 }
  function Second(b: Sextet, c: Sextet): Byte { b as int % 16 * 16 + c as int / 4 }
  function Third(c: Sextet, d: Sextet): Byte { c as int % 4 * 64 + d as int }

  /** Quantums of four symbols give three bytes; a last quantum of two or three
      gives one or two, its spare bits ignored; a single symbol is an error. */
  function Pack(xs: seq<Sextet>): Option<seq<Byte>> {
    if |xs| == 0 then Some([])
    else if |xs| == 1 then None
    else if |xs| == 2 then Some([First(xs[0], xs[1])])
    else if |xs| == 3 then Some([First(xs[0], xs[1]), Second(xs[1], xs[2])])
    else match Pack(xs[4..])
      case Some(rest) =>
        Some([First(xs[0], xs[1]), Second(xs[1], xs[2]), Third(xs[2], xs[3])] + rest)
      case None => None
  }

  function Decode(s: string): Option<seq<Byte>> {
    match Sextets(DropLineBreaks(s))
    case Some(xs) => Pack(xs)
    case None => None
  }

  /** The symbols an encoder emits, before they are turned into text. */
  function Split(bytes: seq<Byte>): seq<Sextet> {
    if |bytes| == 0 then []
    else if |bytes| == 1 then [bytes[0] / 4, bytes[0] % 4 * 16]
    else if |bytes| == 2 then
      [bytes[0] / 4, bytes[0] % 4 * 16 + bytes[1] / 16, bytes[1] % 16 * 4]
    else
      [bytes[0] / 4, bytes[0] % 4 * 16 + bytes[1] / 16, bytes[1] % 16 * 4 + bytes[2] / 64, bytes[2] % 64]
      + Split(bytes[3..])
  }

  function Symbols(xs: seq<Sextet>): string {
    seq(|xs|, i requires 0 <= i < |xs| => Symbol(xs[i]))
  }

  function Encode(bytes: seq<Byte>): string {
    Symbols(Split(bytes))
  }

  lemma QuantumReadBack(a: Byte, b: Byte, c: Byte)
    ensures First(a / 4, a % 4 * 16 + b / 16) == a
    ensures Second(a % 4 * 16 + b / 16, b % 16 * 4 + c / 64) == b
    ensures Third(b % 16 * 4 + c / 64, c % 64) == c
  {
  }

  lemma PackQuantum(a: Sextet, b: Sextet, c: Sextet, d: Sextet, rest: seq<Sextet>, bytes: seq<Byte>)
    requires Pack(rest) == Some(bytes)
    ensures Pack([a, b, c, d] + rest) == Some([First(a, b), Second(b, c), Third(c, d)] + bytes)
  {
  }

  lemma PackOne(x: Byte)
    ensures Pack(Split([x])) == Some([x])
  {
  }

  lemma PackTwo(x: Byte, y: Byte)
    ensures Pack(Split([x, y])) == Some([x, y])
  {
  }

  lemma SplitThree(x: Byte, y: Byte, z: Byte, rest: seq<Byte>)
    ensures Split([x, y, z] + rest)
         == [x / 4, x % 4 * 16 + y / 16, y % 16 * 4 + z / 64, z % 64] + Split(rest)
  {
  }

  lemma PackThree(x: Byte, y: Byte, z: Byte, rest: seq<Byte>)
    requires Pack(Split(rest)) == Some(rest)
    ensures Pack(Split([x, y, z] + rest)) == Some([x, y, z] + rest)
  {
    SplitThree(x, y, z, rest);
    PackQuantum(x / 4, x % 4 * 16 + y / 16, y % 16 * 4 + z / 64, z % 64, Split(rest), rest);
    QuantumReadBack(x, y, z);
  }

  lemma {:induction false} PackSplit(bytes: seq<Byte>)
    ensures Pack(Split(bytes)) == Some(bytes)
  {
    if |bytes| == 1 {
      PackOne(bytes[0]);
      assert bytes == [bytes[0]];
    } else if |bytes| == 2 {
      PackTwo(bytes[0], bytes[1]);
      assert bytes == [bytes[0], bytes[1]];
    } else if |bytes| > 2 {
      PackSplit(bytes[3..]);
      PackThree(bytes[0], bytes[1], bytes[2], bytes[3..]);
      assert bytes == [bytes[0], bytes[1], bytes[2]] + bytes[3..];
    }
  }

  lemma {:induction false} SymbolsReadBack(xs: seq<Sextet>)
    ensures DropLineBreaks(Symbols(xs)) == Symbols(xs) && Sextets(Symbols(xs)) == Some(xs)
  {
    if xs != [] {
      assert Symbols(xs)[1..] == Symbols(xs[1..]);
      SymbolsReadBack(xs[1..]);
      assert xs == [xs[0]] + xs[1..];
      assert Symbols(xs) == [Symbols(xs)[0]] + Symbols(xs)[1..];
    }
  }

  lemma RoundTrip(bytes: seq<Byte>)
    ensures Decode(Encode(bytes)) == Some(bytes)
  {
    SymbolsReadBack(Split(bytes));
    PackSplit(bytes);
  }

  /** Published examples: the unpadded texts of "f", "fo", "foo", and the two
      symbols in which this alphabet differs from the plain one. */
  lemma Examples()
    ensures Encode([102]) == "Zg" && Encode([102, 111]) == "Zm8" && Encode([102, 111, 111]) == "Zm9v"
    ensures Encode([251, 255]) == "-_8"
  {
  }

  predicate InAlphabet(c: char) {
    'A' <= c <= 'Z' || 'a' <= c <= 'z' || '0' <= c <= '9' || c == '-' || c == '_'
  }

  /** A text with any other character in it, padding included, is refused. */
  lemma {:induction false} ForeignCharacterRefused(s: string, i: nat)
    requires i < |s| && !InAlphabet(s[i]) && s[i] != '\n' && s[i] != '\r'
    ensures Sextets(DropLineBreaks(s)) == None && Decode(s) == None
  {
    if i > 0 {
      ForeignCharacterRefused(s[1..], i - 1);
    }
    if s[0] != '\n' && s[0] != '\r' {
      assert ([s[0]] + DropLineBreaks(s[1..]))[1..] == DropLineBreaks(s[1..]);
    }
  }
}
