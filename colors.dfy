/** The colour resolver: palette names, hex strings, ready triples and the empty string. */
module Colors {
  import opened Base

  /** A colour triple. Channels are unbounded: a tuple passed in by the caller is not checked. */
  datatype Rgb = Rgb(r: int, g: int, b: int)

  /** A colour as a caller writes it: a string (palette name, hex digits or "") or a triple. */
  datatype ColorSpec = Text(s: string) | Triple(rgb: Rgb)

  const Black := Rgb(0, 0, 0)

  /** The fixed palette, keyed by lower-case name. */
  const Palette: map<string, Rgb> := map[
    "red"    := Rgb(255, 0, 0),
    "blue"   := Rgb(0, 0, 255),
    "green"  := Rgb(0, 255, 0),
    "yellow" := Rgb(255, 255, 0),
    "purple" := Rgb(255, 0, 255),
    "cyan"   := Rgb(0, 255, 255),
    "white"  := Rgb(255, 255, 255),
    "orange" := Rgb(255, 165, 0),
    "black"  := Rgb(0, 0, 0)
  ]

  predicate InByteRange(c: Rgb) {
    0 <= c.r < 256 && 0 <= c.g < 256 && 0 <= c.b < 256
  }

  /** str.lower() on the ASCII letters. */
  function LowerChar(c: char): char {
    if 'A' <= c <= 'Z' then (c as int + 32) as char else c
  }

  function Lower(s: string): string {
    seq(|s|, i requires 0 <= i < |s| => LowerChar(s[i]))
  }

  /** The value of one hexadecimal digit, as int(_, 16) reads it. */
  function HexValue(c: char): Option<int> {
    if '0' <= c <= '9' then Some(c as int - '0' as int)
    else if 'a' <= c <= 'f' then Some(c as int - 'a' as int + 10)
    else if 'A' <= c <= 'F' then Some(c as int - 'A' as int + 10)
    else None
  }

  predicate IsHexDigit(c: char) { HexValue(c).Some? }

  /**
    * The characters int() strips from both ends of its argument: MicroPython's ASCII
    * whitespace, the space and tab through carriage return.
    */
  predicate IsSpace(c: char) {
    c == ' ' || ('\t' <= c <= '\r')
  }

  function StripLeft(s: string): string {
    if |s| > 0 && IsSpace(s[0]) then StripLeft(s[1..]) else s
  }

  function StripRight(s: string): string {
    if |s| > 0 && IsSpace(s[|s| - 1]) then StripRight(s[..|s| - 1]) else s
  }

  function Strip(s: string): string { StripRight(StripLeft(s)) }

  /** Python's slice s[i:j] for 0 <= i <= j: the bounds are clipped to the length. */
  function Slice(s: string, i: nat, j: nat): (t: string)
    requires i <= j
    ensures |t| <= j - i
  {
    s[Min(i, |s|)..Min(j, |s|)]
  }

  /**
    * int(t, 16) for the slices of at most two characters the resolver gives it: surrounding
    * whitespace is ignored and one sign is allowed; a "0x" prefix cannot form a valid numeral
    * in two characters, and neither can an underscore under CPython's rule (only between two
    * digits). None stands for the ValueError.
    */
  function ParseHexField(t: string): Option<int>
    requires |t| <= 2
  {
    var u := Strip(t);
    if |u| == 0 then None
    else if u[0] == '+' || u[0] == '-' then
      if |u| == 2 && IsHexDigit(u[1]) then
        Some(if u[0] == '-' then -HexValue(u[1]).value else HexValue(u[1]).value)
      else None
    else if |u| == 1 then HexValue(u[0])
    else if IsHexDigit(u[0]) && IsHexDigit(u[1]) then Some(16 * HexValue(u[0]).value + HexValue(u[1]).value)
    else None
  }

  /** hex_to_rgb: the fields at 0, 2 and 4, each read by int(_, 16); characters after the sixth are ignored. */
  function HexToRgb(s: string): Result<Rgb> {
    var r := ParseHexField(Slice(s, 0, 2));
    var g := ParseHexField(Slice(s, 2, 4));
    var b := ParseHexField(Slice(s, 4, 6));
    if r.Some? && g.Some? && b.Some? then Ok(Rgb(r.value, g.value, b.value)) else Err(ValueError)
  }

  /** get_color_tuple: Ok(None) is Python's None, Err the exception int() raises. */
  function Resolve(spec: ColorSpec): (res: Result<Option<Rgb>>)
    ensures spec.Triple? ==> res == Ok(Some(spec.rgb))
    ensures spec.Text? ==> (res == Ok(None) <==> spec.s == "")
    ensures spec.Text? && Lower(spec.s) in Palette ==> res == Ok(Some(Palette[Lower(spec.s)]))
    ensures res.Err? ==> spec.Text? && spec.s != "" && Lower(spec.s) !in Palette
  {
    match spec
    case Triple(t) => Ok(Some(t))
    case Text(s) =>
      var v := Lower(s);
      if v == "" then Ok(None)
      else if v in Palette then Ok(Some(Palette[v]))
      else
        match HexToRgb(v)
        case Ok(t) => Ok(Some(t))
        case Err(e) => Err(e)
  }

  /** The value of two hex digits at position i, most significant first. */
  function PairValue(s: string, i: nat): int
    requires i + 1 < |s| && IsHexDigit(s[i]) && IsHexDigit(s[i + 1])
  {
    16 * HexValue(s[i]).value + HexValue(s[i + 1]).value
  }

  predicate IsHex6(s: string) {
    |s| == 6 && forall i :: 0 <= i < 6 ==> IsHexDigit(s[i])
  }

  lemma LowerKeepsHexValue(c: char)
    ensures HexValue(LowerChar(c)) == HexValue(c)
  {
  }

  /** No palette name is spelled with hex digits only, so such strings always reach hex_to_rgb. */
  lemma HexDigitsAreNotPaletteNames(v: string)
    requires forall i :: 0 <= i < |v| ==> IsHexDigit(v[i])
    ensures v !in Palette
  {
    forall k | k in Palette ensures |k| >= 2 && (!IsHexDigit(k[0]) || !IsHexDigit(k[1])) {
      assert k == "red" || k == "blue" || k == "green" || k == "yellow" || k == "purple"
          || k == "cyan" || k == "white" || k == "orange" || k == "black";
    }
  }

  lemma HexPairParses(s: string, i: nat)
    requires i + 1 < |s| && IsHexDigit(s[i]) && IsHexDigit(s[i + 1])
    ensures ParseHexField(s[i..i + 2]) == Some(PairValue(s, i))
    ensures 0 <= PairValue(s, i) < 256
  {
    var t := s[i..i + 2];
    assert t[0] == s[i] && t[1] == s[i + 1];
    assert StripLeft(t) == t;
    assert StripRight(t) == t;
  }

  lemma HexFieldOfHex6(v: string, i: nat)
    requires IsHex6(v) && i <= 4 && i % 2 == 0
    ensures ParseHexField(Slice(v, i, i + 2)) == Some(PairValue(v, i))
  {
    assert Slice(v, i, i + 2) == v[i..i + 2];
    HexPairParses(v, i);
  }

  lemma HexToRgbOfHex6(v: string)
    requires IsHex6(v)
    ensures HexToRgb(v) == Ok(Rgb(PairValue(v, 0), PairValue(v, 2), PairValue(v, 4)))
  {
    HexFieldOfHex6(v, 0);
    HexFieldOfHex6(v, 2);
    HexFieldOfHex6(v, 4);
  }

  lemma LowerOfHex6(s: string)
    requires IsHex6(s)
    ensures IsHex6(Lower(s))
    ensures PairValue(Lower(s), 0) == PairValue(s, 0)
    ensures PairValue(Lower(s), 2) == PairValue(s, 2)
    ensures PairValue(Lower(s), 4) == PairValue(s, 4)
  {
    var v := Lower(s);
    forall i | 0 <= i < 6 ensures HexValue(v[i]) == HexValue(s[i]) {
      LowerKeepsHexValue(s[i]);
    }
  }

  /** Six hex digits, in either case, resolve to the triple they spell, each channel a byte. */
  lemma ResolveHex6(s: string)
    requires IsHex6(s)
    ensures Resolve(Text(s)) == Ok(Some(Rgb(PairValue(s, 0), PairValue(s, 2), PairValue(s, 4))))
    ensures InByteRange(Resolve(Text(s)).value.value)
  {
    var v := Lower(s);
    LowerOfHex6(s);
    HexDigitsAreNotPaletteNames(v);
    HexToRgbOfHex6(v);
    HexPairParses(s, 0);
    HexPairParses(s, 2);
    HexPairParses(s, 4);
  }

  function HexDigit(n: int): char
    requires 0 <= n < 16
  {
    if n < 10 then ('0' as int + n) as char else ('a' as int + n - 10) as char
  }

  /** The six-digit lower-case spelling of a byte triple. */
  function ToHex(c: Rgb): (s: string)
    requires InByteRange(c)
    ensures IsHex6(s)
  {
    [HexDigit(c.r / 16), HexDigit(c.r % 16), HexDigit(c.g / 16), HexDigit(c.g % 16),
     HexDigit(c.b / 16), HexDigit(c.b % 16)]
  }

  lemma HexDigitValue(n: int)
    requires 0 <= n < 16
    ensures HexValue(HexDigit(n)) == Some(n)
  {
  }

  lemma HexByteSpelling(n: int)
    requires 0 <= n < 256
    ensures 16 * HexValue(HexDigit(n / 16)).value + HexValue(HexDigit(n % 16)).value == n
  {
    HexDigitValue(n / 16);
    HexDigitValue(n % 16);
  }

  /** Spelling a byte triple in hex and resolving the spelling gives the triple back. */
  lemma HexRoundTrip(c: Rgb)
    requires InByteRange(c)
    ensures Resolve(Text(ToHex(c))) == Ok(Some(c))
  {
    var s := ToHex(c);
    HexByteSpelling(c.r);
    HexByteSpelling(c.g);
    HexByteSpelling(c.b);
    assert PairValue(s, 0) == c.r && PairValue(s, 2) == c.g && PairValue(s, 4) == c.b;
    ResolveHex6(s);
  }

  /** Resolution depends only on the lower-cased string: names and hex digits match in any case. */
  lemma ResolveIgnoresCase(s: string, t: string)
    requires Lower(s) == Lower(t)
    ensures Resolve(Text(s)) == Resolve(Text(t))
  {
    if s == "" || t == "" {
      assert |Lower(s)| == |s| && |Lower(t)| == |t|;
    }
  }

  /** int(_, 16) accepts a sign, so a hex-like string can resolve to a channel outside 0..255. */
  lemma SignedFieldAccepted()
    ensures Resolve(Text("-f00ff")) == Ok(Some(Rgb(-15, 0, 255)))
  {
    var v := Lower("-f00ff");
    assert v == "-f00ff";
    assert Slice(v, 0, 2) == "-f" && Slice(v, 2, 4) == "00" && Slice(v, 4, 6) == "ff";
    assert StripLeft("-f") == "-f" && StripRight("-f") == "-f";
    assert StripLeft("00") == "00" && StripRight("00") == "00";
    assert StripLeft("ff") == "ff" && StripRight("ff") == "ff";
  }

  /** int() strips ASCII whitespace around a field, so " f0000" is a colour. */
  lemma FieldWhitespace()
    ensures Resolve(Text(" f0000")) == Ok(Some(Rgb(15, 0, 0)))
  {
    assert Lower(" f0000") == " f0000";
    assert Slice(" f0000", 0, 2) == " f" && Slice(" f0000", 2, 4) == "00" && Slice(" f0000", 4, 6) == "00";
    assert StripLeft(" f") == "f" && StripRight("f") == "f";
    assert StripLeft("00") == "00" && StripRight("00") == "00";
  }

  /** A no-break space is not whitespace to MicroPython's int(), so this spelling is an error. */
  lemma NoBreakSpaceKept()
    ensures Resolve(Text("\U{a0}f0000")).Err?
  {
    assert Lower("\U{a0}f0000") == "\U{a0}f0000";
    assert Slice("\U{a0}f0000", 0, 2) == "\U{a0}f";
    assert StripLeft("\U{a0}f") == "\U{a0}f" && StripRight("\U{a0}f") == "\U{a0}f";
  }
}
