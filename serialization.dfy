/**
 * The one-line text form of an NPC, `<Type> <name> <x> <y>\n`, as written
 * by the per-type save members and read back by NPC::load.
 *
 * Reading follows the formatted extraction of a C++ input stream: a word
 * (std::string) is the longest run of non-space characters after skipping
 * white space and fails on exhausted input; an int skips white space,
 * accepts one optional sign and then the longest run of decimal digits,
 * and fails when there is no digit or when the value does not fit a 32-bit
 * int. Once one extraction fails the stream is in the failed state, so the
 * result is the null pointer whatever the tokens were.
 */
module Serialization {
  import opened Kinds

  datatype Option<T> = None | Some(value: T)

  const IntMin: int := -0x8000_0000
  const IntMax: int := 0x7fff_ffff

  /** A value the source's `int` fields can hold. */
  predicate InIntRange(v: int)
  {
    IntMin <= v <= IntMax
  }

  /** What NPC::load reads from persisted data. */
  datatype NpcRecord = NpcRecord(species: Species, name: string, x: int, y: int)

  /** What NPC::load gives back, with the input it leaves unread. */
  datatype LoadResult =
    | Null                                   // some extraction failed: nullptr
    | UnknownType(token: string)             // std::runtime_error("Unknown NPC type: " + token)
    | Loaded(record: NpcRecord, rest: string)

  // ---------------------------------------------------------------------
  // Characters

  /** The characters std::isspace accepts in the "C" locale. */
  predicate IsSpace(c: char)
  {
    c == ' ' || c == '\t' || c == '\n' || c == '\r' || c as int == 11 || c as int == 12
  }

  predicate IsDigit(c: char)
  {
    '0' <= c <= '9'
  }

  predicate AllDigits(s: string)
  {
    forall i :: 0 <= i < |s| ==> IsDigit(s[i])
  }

  /** A name that survives the round trip: one non-empty word. */
  predicate IsWord(s: string)
  {
    |s| > 0 && forall i :: 0 <= i < |s| ==> !IsSpace(s[i])
  }

  function DigitChar(d: nat): (c: char)
    requires d < 10
    ensures IsDigit(c)
  {
    ('0' as int + d) as char
  }

  function DigitValue(c: char): (d: nat)
    requires IsDigit(c)
    ensures d < 10 && DigitChar(d) == c
  {
    c as int - '0' as int
  }

  // ---------------------------------------------------------------------
  // Decimal numbers, as written by operator<< and read by operator>>

  /** The number a run of decimal digits denotes, most significant first. */
  function DigitsValue(ds: string): nat
    requires AllDigits(ds)
  {
    if ds == [] then 0 else DigitsValue(ds[..|ds| - 1]) * 10 + DigitValue(ds[|ds| - 1])
  }

  /** Decimal digits of a natural number, without leading zeros. */
  function NatToString(n: nat): (s: string)
    ensures |s| > 0 && AllDigits(s)
    ensures DigitsValue(s) == n
    ensures s[0] == '0' ==> n == 0
  {
    if n < 10 then [DigitChar(n)]
    else
      var prefix := NatToString(n / 10);
      var s := prefix + [DigitChar(n % 10)];
      assert s[..|s| - 1] == prefix;
      s
  }

  /** `os << v` for an int: a minus sign for negative values, then the digits. */
  function IntToString(v: int): (s: string)
    ensures |s| > 0 && (s[0] == '-' || IsDigit(s[0]))
  {
    if v < 0 then "-" + NatToString(-v) else NatToString(v)
  }

  // ---------------------------------------------------------------------
  // Extraction

  /** Skips leading white space, as every formatted extraction does first. */
  function SkipSpace(s: string): (r: string)
    ensures |r| <= |s| && r == s[|s| - |r|..]
    ensures forall k :: 0 <= k < |s| - |r| ==> IsSpace(s[k])
    ensures r == [] || !IsSpace(r[0])
  {
    if s != [] && IsSpace(s[0]) then SkipSpace(s[1..]) else s
  }

  /** The longest prefix of `s` without white space. */
  function TakeWord(s: string): (w: string)
    ensures w <= s
    ensures forall i :: 0 <= i < |w| ==> !IsSpace(w[i])
    ensures |w| == |s| || IsSpace(s[|w|])
  {
    if s == [] || IsSpace(s[0]) then [] else [s[0]] + TakeWord(s[1..])
  }

  /** The longest prefix of `s` made of decimal digits. */
  function TakeDigits(s: string): (ds: string)
    ensures ds <= s
    ensures AllDigits(ds)
    ensures |ds| == |s| || !IsDigit(s[|ds|])
  {
    if s == [] || !IsDigit(s[0]) then [] else [s[0]] + TakeDigits(s[1..])
  }

  /** `is >> word` for a std::string: a non-empty word, or failure at end of input. */
  function ReadWord(s: string): (r: Option<(string, string)>)
    ensures r.Some? ==> IsWord(r.value.0) && r.value.0 + r.value.1 == SkipSpace(s)
    ensures r.Some? ==> r.value.1 == [] || IsSpace(r.value.1[0])
    ensures r.None? <==> SkipSpace(s) == []
  {
    var t := SkipSpace(s);
    if t == [] then None
    else
      var w := TakeWord(t);
      assert w + t[|w|..] == t;
      assert t[|w|..] == [] || t[|w|..][0] == t[|w|];
      Some((w, t[|w|..]))
  }

  /** `is >> v` for an int: optional sign, at least one digit, and a value that fits. */
  function ReadInt(s: string): (r: Option<(int, string)>)
    ensures r.Some? ==> InIntRange(r.value.0)
  {
    ReadSigned(SkipSpace(s))
  }

  function Signed(n: nat, negative: bool): int
  {
    if negative then -(n as int) else n
  }

  /** The sign of an int being extracted, once white space is skipped. */
  function ReadSigned(t: string): (r: Option<(int, string)>)
    ensures r.Some? ==> InIntRange(r.value.0)
  {
    if t != [] && t[0] == '-' then ReadMagnitude(t[1..], true)
    else if t != [] && t[0] == '+' then ReadMagnitude(t[1..], false)
    else ReadMagnitude(t, false)
  }

  /** The digits of an int being extracted, negated after a minus sign. */
  function ReadMagnitude(u: string, negative: bool): (r: Option<(int, string)>)
    ensures r.Some? ==> InIntRange(r.value.0)
  {
    var ds := TakeDigits(u);
    if ds == [] then None
    else
      var v := Signed(DigitsValue(ds), negative);
      if InIntRange(v) then Some((v, u[|ds|..])) else None
  }

  /** The type dispatch of NPC::load. */
  function ParseSpecies(token: string): (r: Option<Species>)
    ensures r.Some? ==> TypeName(r.value) == token
    ensures r.None? ==> forall s: Species :: TypeName(s) != token
  {
    if token == "Bear" then Some(Bear)
    else if token == "Duck" then Some(Duck)
    else if token == "Desman" then Some(Desman)
    else None
  }

  // ---------------------------------------------------------------------
  // save and load

  /** Bear::save, Duck::save and Desman::save: `<Type> <name> <x> <y>\n`. */
  function Save(r: NpcRecord): string
  {
    Line(TypeName(r.species), r.name, r.x, r.y)
  }

  /** One saved line with the given type token. */
  function Line(token: string, name: string, x: int, y: int): string
  {
    token + (" " + name + (" " + IntToString(x) + (" " + IntToString(y) + "\n")))
  }

  /**
   * NPC::load: reads the type, the name and the two coordinates; any failed
   * extraction gives Null before the type is looked at, and a type token
   * other than the three class names is an error.
   */
  function Load(s: string): LoadResult
  {
    match ReadWord(s)
    case None => Null
    case Some((token, r1)) =>
      match ReadWord(r1)
      case None => Null
      case Some((name, r2)) =>
        match ReadInt(r2)
        case None => Null
        case Some((x, r3)) =>
          match ReadInt(r3)
          case None => Null
          case Some((y, r4)) =>
            match ParseSpecies(token)
            case Some(species) => Loaded(NpcRecord(species, name, x, y), r4)
            case None => UnknownType(token)
  }

  // ---------------------------------------------------------------------
  // Properties

  /** All four extractions of NPC::load succeed on `s`: type word, name word, x and y. */
  predicate ReadsComplete(s: string)
  {
    ReadWord(s).Some? &&
    ReadWord(ReadWord(s).value.1).Some? &&
    ReadInt(ReadWord(ReadWord(s).value.1).value.1).Some? &&
    ReadInt(ReadInt(ReadWord(ReadWord(s).value.1).value.1).value.1).Some?
  }

  /**
   * Load is null iff one of the four extractions fails, and the unknown-type
   * error iff all four succeed and the first word is no class name; the
   * error names the token read.
   */
  lemma LoadUnknownTypeIffNoClassName(s: string)
    ensures Load(s).Null? <==> !ReadsComplete(s)
    ensures Load(s).UnknownType? <==> ReadsComplete(s) && ParseSpecies(ReadWord(s).value.0).None?
    ensures Load(s).Loaded? <==> ReadsComplete(s) && ParseSpecies(ReadWord(s).value.0).Some?
    ensures Load(s).UnknownType? ==>
              Load(s).token == ReadWord(s).value.0 && forall sp: Species :: TypeName(sp) != Load(s).token
  {
  }

  /** The type tokens load accepts are exactly the names getType returns. */
  lemma ParseSpeciesOfTypeName(s: Species)
    ensures ParseSpecies(TypeName(s)) == Some(s)
  {
  }

  lemma TypeNameIsWord(s: Species)
    ensures IsWord(TypeName(s))
  {
  }

  lemma SkipSpaceOfNonSpace(s: string)
    requires s != [] && !IsSpace(s[0])
    ensures SkipSpace(s) == s
  {
  }

  lemma SkipOneSpace(s: string)
    requires s != [] && !IsSpace(s[0])
    ensures SkipSpace(" " + s) == s
  {
    assert (" " + s)[1..] == s;
  }

  lemma {:induction false} TakeWordOf(w: string, t: string)
    requires forall i :: 0 <= i < |w| ==> !IsSpace(w[i])
    requires t == [] || IsSpace(t[0])
    ensures TakeWord(w + t) == w
  {
    if w != [] {
      assert (w + t)[0] == w[0];
      assert (w + t)[1..] == w[1..] + t;
      TakeWordOf(w[1..], t);
    } else {
      assert w + t == t;
    }
  }

  lemma {:induction false} TakeDigitsOf(ds: string, t: string)
    requires AllDigits(ds)
    requires t == [] || !IsDigit(t[0])
    ensures TakeDigits(ds + t) == ds
  {
    if ds != [] {
      assert (ds + t)[0] == ds[0];
      assert (ds + t)[1..] == ds[1..] + t;
      TakeDigitsOf(ds[1..], t);
    } else {
      assert ds + t == t;
    }
  }

  /** A word followed by white space or the end of input is read back whole. */
  lemma ReadWordOf(w: string, t: string)
    requires IsWord(w)
    requires t == [] || IsSpace(t[0])
    ensures ReadWord(w + t) == Some((w, t))
  {
    SkipSpaceOfNonSpace(w + t);
    TakeWordOf(w, t);
    assert (w + t)[|w|..] == t;
  }

  /** The digits of a written magnitude, followed by a non-digit, are read back. */
  lemma ReadMagnitudeOf(n: nat, negative: bool, t: string)
    requires InIntRange(Signed(n, negative))
    requires t == [] || !IsDigit(t[0])
    ensures ReadMagnitude(NatToString(n) + t, negative) == Some((Signed(n, negative), t))
  {
    var digits := NatToString(n);
    TakeDigitsOf(digits, t);
    assert (digits + t)[|digits|..] == t;
  }

  /** A written int followed by a non-digit is read back as the same value. */
  lemma ReadIntOf(v: int, t: string)
    requires InIntRange(v)
    requires t == [] || !IsDigit(t[0])
    ensures ReadInt(IntToString(v) + t) == Some((v, t))
  {
    SkipSpaceOfNonSpace(IntToString(v) + t);
    if v < 0 {
      ReadNegativeOf(v, t);
    } else {
      ReadNonNegativeOf(v, t);
    }
  }

  lemma ReadSignedMinus(u: string)
    ensures ReadSigned("-" + u) == ReadMagnitude(u, true)
  {
    assert ("-" + u)[0] == '-' && ("-" + u)[1..] == u;
  }

  lemma ReadNegativeOf(v: int, t: string)
    requires InIntRange(v) && v < 0
    requires t == [] || !IsDigit(t[0])
    ensures ReadSigned(IntToString(v) + t) == Some((v, t))
  {
    var n: nat := -v;
    var u := NatToString(n) + t;
    calc {
      ReadSigned(IntToString(v) + t);
      { NegativeShape(v, NatToString(n), t); }
      ReadSigned("-" + u);
      { ReadSignedMinus(u); }
      ReadMagnitude(u, true);
      { ReadMagnitudeOf(n, true, t); }
      Some((Signed(n, true), t));
    }
  }

  lemma NegativeShape(v: int, digits: string, t: string)
    requires v < 0 && digits == NatToString(-v)
    ensures IntToString(v) + t == "-" + (digits + t)
  {
  }

  lemma ReadNonNegativeOf(v: int, t: string)
    requires InIntRange(v) && v >= 0
    requires t == [] || !IsDigit(t[0])
    ensures ReadSigned(IntToString(v) + t) == Some((v, t))
  {
    var s := IntToString(v) + t;
    assert s[0] == IntToString(v)[0];
    ReadMagnitudeOf(v, false, t);
  }

  lemma ReadMagnitudeOverflow(n: nat, negative: bool, t: string)
    requires !InIntRange(Signed(n, negative))
    requires t == [] || !IsDigit(t[0])
    ensures ReadMagnitude(NatToString(n) + t, negative) == None
  {
    TakeDigitsOf(NatToString(n), t);
  }

  /**
   * A written number outside the 32-bit range fails the int extraction
   * (the stream's failbit), so it is never wrapped or clamped into range.
   */
  lemma ReadIntOutOfRange(v: int, t: string)
    requires !InIntRange(v)
    requires t == [] || !IsDigit(t[0])
    ensures ReadInt(IntToString(v) + t) == None
  {
    SkipSpaceOfNonSpace(IntToString(v) + t);
    if v < 0 {
      var n: nat := -v;
      var u := NatToString(n) + t;
      calc {
        ReadSigned(IntToString(v) + t);
        { NegativeShape(v, NatToString(n), t); }
        ReadSigned("-" + u);
        { ReadSignedMinus(u); }
        ReadMagnitude(u, true);
        { ReadMagnitudeOverflow(n, true, t); }
        None;
      }
    } else {
      var s := IntToString(v) + t;
      assert s[0] == IntToString(v)[0];
      ReadMagnitudeOverflow(v, false, t);
    }
  }

  /** A word after one space, followed by white space or the end, is read back whole. */
  lemma ReadWordAfterSpace(w: string, t: string)
    requires IsWord(w)
    requires t == [] || IsSpace(t[0])
    ensures ReadWord(" " + w + t) == Some((w, t))
  {
    assert " " + w + t == " " + (w + t);
    SkipOneSpace(w + t);
    TakeWordOf(w, t);
    assert (w + t)[|w|..] == t;
  }

  /** A written int after one space, followed by a non-digit, is read back. */
  lemma ReadIntAfterSpace(v: int, t: string)
    requires InIntRange(v)
    requires t == [] || !IsDigit(t[0])
    ensures ReadInt(" " + IntToString(v) + t) == Some((v, t))
  {
    assert " " + IntToString(v) + t == " " + (IntToString(v) + t);
    SkipOneSpace(IntToString(v) + t);
    ReadIntOf(v, t);
    SkipSpaceOfNonSpace(IntToString(v) + t);
  }

  lemma ReadIntAfterSpaceOutOfRange(v: int, t: string)
    requires !InIntRange(v)
    requires t == [] || !IsDigit(t[0])
    ensures ReadInt(" " + IntToString(v) + t) == None
  {
    assert " " + IntToString(v) + t == " " + (IntToString(v) + t);
    SkipOneSpace(IntToString(v) + t);
    ReadIntOutOfRange(v, t);
    SkipSpaceOfNonSpace(IntToString(v) + t);
  }

  /** What Load gives for a completely read line: the kind named by the token, or the error. */
  function Dispatch(token: string, name: string, x: int, y: int, rest: string): LoadResult
  {
    match ParseSpecies(token)
    case Some(species) => Loaded(NpcRecord(species, name, x, y), rest)
    case None => UnknownType(token)
  }

  /** Load in terms of the four extractions it makes. */
  lemma LoadOfReads(s: string, token: string, r1: string, name: string, r2: string,
                    x: int, r3: string, y: int, r4: string)
    requires ReadWord(s) == Some((token, r1)) && ReadWord(r1) == Some((name, r2))
    requires ReadInt(r2) == Some((x, r3)) && ReadInt(r3) == Some((y, r4))
    ensures Load(s) == Dispatch(token, name, x, y, r4)
  {
  }

  /**
   * A complete line whose type token and name are single words and whose
   * coordinates fit an int loads as that token's kind, or is the
   * unknown-type error; the newline stays unread.
   */
  lemma LoadLine(token: string, name: string, x: int, y: int, rest: string)
    requires IsWord(token) && IsWord(name) && InIntRange(x) && InIntRange(y)
    ensures Load(Line(token, name, x, y) + rest) == Dispatch(token, name, x, y, "\n" + rest)
  {
    var tail := "\n" + rest;
    var s3 := " " + IntToString(y) + tail;
    var s2 := " " + IntToString(x) + s3;
    var s1 := " " + name + s2;
    LineShape(token, name, x, y, rest);
    ReadIntAfterSpace(y, tail);
    ReadIntAfterSpace(x, s3);
    ReadWordAfterSpace(name, s2);
    ReadWordOf(token, s1);
    LoadOfReads(token + s1, token, s1, name, s2, x, s3, y, tail);
  }

  lemma LineShape(token: string, name: string, x: int, y: int, rest: string)
    ensures Line(token, name, x, y) + rest ==
              token + (" " + name + (" " + IntToString(x) + (" " + IntToString(y) + ("\n" + rest))))
  {
    var sx, sy := IntToString(x), IntToString(y);
    var s4 := " " + sy + ("\n" + rest);
    assert " " + sy + "\n" + rest == s4;
    var s3 := " " + sx + s4;
    assert " " + sx + (" " + sy + "\n") + rest == s3;
    var s2 := " " + name + s3;
    assert " " + name + (" " + sx + (" " + sy + "\n")) + rest == s2;
    assert Line(token, name, x, y) == token + (" " + name + (" " + sx + (" " + sy + "\n")));
  }

  /**
   * load(save(n)) gives back the kind, the name and the position, leaving
   * the line's newline unread, whenever the name is one word and the
   * coordinates fit an int.
   */
  lemma SaveLoadRoundTrip(r: NpcRecord, rest: string)
    requires IsWord(r.name) && InIntRange(r.x) && InIntRange(r.y)
    ensures Load(Save(r) + rest) == Loaded(r, "\n" + rest)
  {
    TypeNameIsWord(r.species);
    LoadLine(TypeName(r.species), r.name, r.x, r.y, rest);
    ParseSpeciesOfTypeName(r.species);
  }

  /** An unknown type token on an otherwise complete line is the error, not Null. */
  lemma LoadRejectsUnknownType(token: string, name: string, x: int, y: int, rest: string)
    requires IsWord(token) && IsWord(name) && InIntRange(x) && InIntRange(y)
    requires forall s: Species :: TypeName(s) != token
    ensures Load(Line(token, name, x, y) + rest) == UnknownType(token)
  {
    LoadLine(token, name, x, y, rest);
  }

  /** Nothing but white space skips to the end of input. */
  lemma {:induction false} SkipSpaceOfBlank(s: string)
    requires forall i :: 0 <= i < |s| ==> IsSpace(s[i])
    ensures SkipSpace(s) == []
  {
    if s != [] {
      SkipSpaceOfBlank(s[1..]);
    }
  }

  /** Load when the fourth extraction, of y, fails. */
  lemma LoadOfFailedY(s: string, token: string, r1: string, name: string, r2: string,
                      x: int, r3: string)
    requires ReadWord(s) == Some((token, r1)) && ReadWord(r1) == Some((name, r2))
    requires ReadInt(r2) == Some((x, r3)) && ReadInt(r3) == None
    ensures Load(s) == Null
  {
  }

  /** Load when the third extraction, of x, fails. */
  lemma LoadOfFailedX(s: string, token: string, r1: string, name: string, r2: string)
    requires ReadWord(s) == Some((token, r1)) && ReadWord(r1) == Some((name, r2))
    requires ReadInt(r2) == None
    ensures Load(s) == Null
  {
  }

  /**
   * A line whose x or y lies outside the 32-bit range loads as Null,
   * whatever its type token: the overflowing extraction fails the stream.
   */
  lemma LoadOutOfRangeIsNull(token: string, name: string, x: int, y: int, rest: string)
    requires IsWord(token) && IsWord(name)
    requires !InIntRange(x) || !InIntRange(y)
    ensures Load(Line(token, name, x, y) + rest) == Null
  {
    var tail := "\n" + rest;
    var s3 := " " + IntToString(y) + tail;
    var s2 := " " + IntToString(x) + s3;
    var s1 := " " + name + s2;
    LineShape(token, name, x, y, rest);
    ReadWordAfterSpace(name, s2);
    ReadWordOf(token, s1);
    if !InIntRange(x) {
      ReadIntAfterSpaceOutOfRange(x, s3);
      LoadOfFailedX(token + s1, token, s1, name, s2);
    } else {
      ReadIntAfterSpace(x, s3);
      ReadIntAfterSpaceOutOfRange(y, tail);
      LoadOfFailedY(token + s1, token, s1, name, s2, x, s3);
    }
  }

  lemma MissingYShape(token: string, name: string, x: int, blank: string)
    ensures token + " " + name + " " + IntToString(x) + blank ==
              token + (" " + name + (" " + IntToString(x) + blank))
  {
  }

  /**
   * A line that stops after the x coordinate loads as Null, whatever its
   * type token: the failed extraction of y comes before the type dispatch.
   */
  lemma LoadMissingYIsNull(token: string, name: string, x: int, blank: string)
    requires IsWord(token) && IsWord(name) && InIntRange(x)
    requires forall i :: 0 <= i < |blank| ==> IsSpace(blank[i])
    ensures Load(token + " " + name + " " + IntToString(x) + blank) == Null
  {
    var s2 := " " + IntToString(x) + blank;
    var s1 := " " + name + s2;
    MissingYShape(token, name, x, blank);
    assert blank == [] || !IsDigit(blank[0]) by {
      if blank != [] { assert IsSpace(blank[0]); }
    }
    ReadIntAfterSpace(x, blank);
    ReadWordAfterSpace(name, s2);
    ReadWordOf(token, s1);
    SkipSpaceOfBlank(blank);
    assert ReadInt(blank) == None;
    LoadOfFailedY(token + s1, token, s1, name, s2, x, blank);
  }
}
