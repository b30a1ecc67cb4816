/** Which values the texts of variables stand for: each kind of setting has a way to show a value,
    what is shown is read back, and nothing else is ever written. */
module EnvValues {
  import opened Text
  import opened ConfigTree
  import opened Environment
  import opened EnvKeys

  function Digit(d: nat): (c: char)
    requires d < 10
    ensures '0' <= c <= '9' && c as int - '0' as int == d
  {
    "0123456789"[d]
  }

  /** A number in decimal, without leading zeros. */
  function Decimal(n: nat): (s: string)
    ensures s != "" && AllDigits(s)
  {
    if n < 10 then [Digit(n)] else Decimal(n / 10) + [Digit(n % 10)]
  }

  predicate AllDigits(s: string) {
    forall i :: 0 <= i < |s| ==> '0' <= s[i] <= '9'
  }

  predicate AllZeros(s: string) {
    forall i :: 0 <= i < |s| ==> s[i] == '0'
  }

  function Magnitude(i: int): nat {
    if i < 0 then -i else i
  }

  /** A sign that may stand before the digits of `i`. */
  predicate SignOf(sign: string, i: int) {
    if i < 0 then sign == "-" else sign in {"", "+"} || (i == 0 && sign == "-")
  }

  /** `s` is `i` in decimal, maybe with a sign it does not need, maybe with leading zeros. */
  ghost predicate Spells(s: string, i: int) {
    exists sign, zeros :: SpellsWith(s, i, sign, zeros)
  }

  predicate SpellsWith(s: string, i: int, sign: string, zeros: string) {
    SignOf(sign, i) && AllZeros(zeros) && s == sign + zeros + Decimal(Magnitude(i))
  }

  lemma {:induction false} ParsesIffDigits(s: string)
    ensures ParseDigits(s).Some? <==> AllDigits(s)
  {
    if s != "" {
      ParsesIffDigits(s[..|s| - 1]);
    }
  }

  lemma ParseOneMore(s: string, c: char)
    requires AllDigits(s) && '0' <= c <= '9'
    ensures ParseDigits(s).Some?
    ensures ParseDigits(s + [c]) == Some(10 * ParseDigits(s).value + (c as int - '0' as int))
  {
    ParsesIffDigits(s);
    assert (s + [c])[..|s|] == s;
  }

  lemma {:induction false} ParseZeros(zeros: string)
    requires AllZeros(zeros)
    ensures AllDigits(zeros) && ParseDigits(zeros) == Some(0)
  {
    if zeros != "" {
      ParseZeros(zeros[..|zeros| - 1]);
    }
  }

  lemma DecimalOfDigit(d: nat)
    requires d < 10
    ensures Decimal(d) == [Digit(d)]
  {
    hide Digit;
  }

  lemma DecimalOfMore(m: nat, d: nat)
    requires m > 0 && d < 10
    ensures Decimal(10 * m + d) == Decimal(m) + [Digit(d)]
  {
    assert (10 * m + d) / 10 == m && (10 * m + d) % 10 == d;
  }

  lemma {:induction false} ParseDecimal(zeros: string, n: nat)
    requires AllZeros(zeros)
    ensures AllDigits(zeros + Decimal(n)) && ParseDigits(zeros + Decimal(n)) == Some(n)
    decreases n
  {
    hide ParseDigits, Decimal;
    var m, d := n / 10, n % 10;
    ParseZeros(zeros);
    if m == 0 {
      DecimalOfDigit(d);
      ParseOneMore(zeros, Digit(d));
    } else {
      DecimalOfMore(m, d);
      ParseDecimal(zeros, m);
      ParseOneMore(zeros + Decimal(m), Digit(d));
      assert zeros + Decimal(n) == zeros + Decimal(m) + [Digit(d)];
    }
  }

  /** One digit after zeros and a number without leading zeros. */
  lemma Appended(zeros: string, m: nat, c: char) returns (more: string)
    requires AllZeros(zeros) && '0' <= c <= '9'
    ensures AllZeros(more)
    ensures zeros + Decimal(m) + [c] == more + Decimal(10 * m + (c as int - '0' as int))
  {
    var d := c as int - '0' as int;
    if m == 0 {
      DecimalOfDigit(0);
      DecimalOfDigit(d);
        more := zeros + "0";
    } else {
      DecimalOfMore(m, d);
      more := zeros;
    }
  }

  /** Digits are zeros, and then the number they stand for. */
  lemma {:induction false} DigitsAreDecimal(s: string) returns (zeros: string)
    requires s != "" && AllDigits(s)
    ensures ParseDigits(s).Some? && AllZeros(zeros) && s == zeros + Decimal(ParseDigits(s).value)
  {
    hide ParseDigits, Decimal;
    var front, c := s[..|s| - 1], s[|s| - 1];
    ParseOneMore(front, c);
    assert s == front + [c];
    if front == "" {
      ParseZeros("");
      DecimalOfDigit(c as int - '0' as int);
      zeros := "";
    } else {
      zeros := DigitsAreDecimal(front);
      zeros := Appended(zeros, ParseDigits(front).value, c);
    }
  }

  function Signed(sign: string, n: nat): int {
    var i: int := n;
    if sign == "-" then -i else i
  }

  /** Reading a sign and digits. */
  lemma ParseSigned(sign: string, digits: string)
    requires sign in {"", "+", "-"} && digits != "" && AllDigits(digits)
    ensures ParseDigits(digits).Some?
    ensures var i := Signed(sign, ParseDigits(digits).value);
      ParseInt(sign + digits) == if MIN_INT <= i <= MAX_INT then Some(i) else None
  {
    hide ParseDigits;
    ParsesIffDigits(digits);
    var s := sign + digits;
    if sign == "" {
      assert s == digits;
    } else {
      assert s[0] == sign[0] && s[1..] == digits;
    }
  }

  /** A text is read as `i` if and only if it spells `i` and `i` has 64 bits. */
  lemma ParseIntIff(s: string, i: int)
    ensures ParseInt(s) == Some(i) <==> MIN_INT <= i <= MAX_INT && Spells(s, i)
  {
    hide ParseInt, SpellsWith;
    if MIN_INT <= i <= MAX_INT && Spells(s, i) {
      var sign, zeros :| SpellsWith(s, i, sign, zeros);
      SpelledIsParsed(s, i, sign, zeros);
    }
    if ParseInt(s) == Some(i) {
      ParsedIsSpelled(s, i);
    }
  }

  lemma SpelledIsParsed(s: string, i: int, sign: string, zeros: string)
    requires SpellsWith(s, i, sign, zeros)
    ensures ParseInt(s) == if MIN_INT <= i <= MAX_INT then Some(i) else None
  {
    hide ParseInt, ParseDigits, Decimal;
    var digits := zeros + Decimal(Magnitude(i));
    ParseDecimal(zeros, Magnitude(i));
    ParseSigned(sign, digits);
    assert s == sign + digits;
  }

  lemma ParsedIsSpelled(s: string, i: int)
    requires ParseInt(s) == Some(i)
    ensures MIN_INT <= i <= MAX_INT && Spells(s, i)
  {
    hide ParseDigits, Decimal, AllDigits, AllZeros;
    var signed := s[0] == '-' || s[0] == '+';
    var sign, digits := if signed then s[..1] else "", if signed then s[1..] else s;
    assert s == sign + digits;
    ParsesIffDigits(digits);
    var zeros := DigitsAreDecimal(digits);
    assert Magnitude(i) == ParseDigits(digits).value;
    assert signed ==> sign == [s[0]];
    assert SignOf(sign, i);
    assert s == sign + zeros + Decimal(Magnitude(i));
    assert SpellsWith(s, i, sign, zeros);
  }

  /** Small letters, capitals, or small letters after one capital. */
  function Cased(word: string): set<string>
    requires word != ""
  {
    {word, Upper(word), Upper(word[..1]) + word[1..]}
  }

  /** A text is read as a flag if and only if it is one of three words for it, in one of three
      ways to write them. */
  lemma ParseBoolIff(s: string)
    ensures ParseBool(s) == Some(true) <==> s in Cased("1") + Cased("t") + Cased("true")
    ensures ParseBool(s) == Some(false) <==> s in Cased("0") + Cased("f") + Cased("false")
  {
    hide Cased;
    CasedTexts("1", "1", "1");
    CasedTexts("t", "T", "T");
    CasedTexts("true", "TRUE", "True");
    CasedTexts("0", "0", "0");
    CasedTexts("f", "F", "F");
    CasedTexts("false", "FALSE", "False");
  }

  lemma CasedTexts(word: string, upper: string, title: string)
    requires |upper| == |word| > 0 && forall i :: 0 <= i < |word| ==> UpperChar(word[i]) == upper[i]
    requires title == upper[..1] + word[1..]
    ensures Cased(word) == {word, upper, title}
  {
    UpperOfText(word, upper);
    UpperOfText(word[..1], upper[..1]);
  }

  lemma UpperOfText(s: string, upper: string)
    requires |upper| == |s| && forall i :: 0 <= i < |s| ==> UpperChar(s[i]) == upper[i]
    ensures Upper(s) == upper
  {
    forall i | 0 <= i < |s| ensures Upper(s)[i] == upper[i] {
      UpperByChar(s, i);
    }
  }

  lemma {:induction false} UpperByChar(s: string, i: nat)
    requires i < |s|
    ensures Upper(s)[i] == UpperChar(s[i])
  {
    if i > 0 { UpperByChar(s[1..], i - 1); }
  }

  // -------------------------------------------------------------------------
  // Showing a value
  // -------------------------------------------------------------------------

  /** The values a variable can give a setting, apart from maps. */
  ghost predicate Showable(x: Scalar) {
    match x
    case SString(_) => true
    case SBool(_) => true
    case SInt(i) => MIN_INT <= i <= MAX_INT
    case SList(items) => items != [] && AllFreeOf(items, ' ')
    case SRaw(_) => true
    case _ => false
  }

  function Show(x: Scalar): string {
    match x
    case SString(text) => text
    case SBool(flag) => if flag then "true" else "false"
    case SInt(i) => (if i < 0 then "-" else "") + Decimal(Magnitude(i))
    case SList(items) => Join(items, ' ')
    case SRaw(bytes) => bytes
    case _ => ""
  }

  /** A number is read back if it has 64 bits; a wider one is not written at all. */
  lemma ParseOfNumber(i: int)
    ensures ParseInt(Show(SInt(i))) == if MIN_INT <= i <= MAX_INT then Some(i) else None
  {
    hide ParseInt, Decimal;
    var sign, text := if i < 0 then "-" else "", Show(SInt(i));
    assert sign + "" == sign;
    assert SpellsWith(text, i, sign, "");
    hide SpellsWith, Show;
    SpelledIsParsed(text, i, sign, "");
  }

  /** What is shown is read back. */
  lemma ParseOfShown(env: Env, kind: Kind, x: Scalar)
    requires x.HasKind(kind) && Showable(x)
    ensures Parse(env, kind, Show(x)) == Some(x)
  {
    hide ParseInt, Split, Join, Decimal;
    match x
    case SInt(i) => ParseOfNumber(i);
    case SList(items) => SplitOfJoin(items, ' ');
    case _ =>
  }

  /** No text gives a value that could not be shown. */
  lemma ParsedIsShowable(env: Env, kind: Kind, text: string)
    requires kind != KMap
    ensures var x := Parse(env, kind, text); x.Some? ==> Showable(x.value)
  {
    match kind
    case KList => SplitWordsAreFree(text, ' ');
    case KInt => if ParseInt(text).Some? { ParseIntIff(text, ParseInt(text).value); }
    case _ =>
  }

  // -------------------------------------------------------------------------
  // What a variable does to the configuration
  // -------------------------------------------------------------------------

  /** A variable named after a leaf and showing a value overrides that leaf with that value, and
      no other leaf. */
  lemma ShownIsWritten(ty: Ty, q: Path, x: Scalar, decode: string -> DecodedMap)
    requires WellFormed(ty) && WellNamed(ty) && ty.TStruct? && IsLeaf(ty, q)
    requires x.HasKind(KindAt(ty, q)) && Showable(x)
    ensures Overrides(WritesOf(ty, Env(map[Variable(q) := Show(x)], decode))) == map[q := x]
  {
    OneVariable(ty, q, Show(x), decode);
    ParseOfShown(Env(map[Variable(q) := Show(x)], decode), KindAt(ty, q), x);
  }

  /** On a map setting it is the decoded text that is written, and nothing if it does not decode. */
  lemma DecodedIsWritten(ty: Ty, q: Path, text: string, decode: string -> DecodedMap)
    requires WellFormed(ty) && WellNamed(ty) && ty.TStruct? && IsLeaf(ty, q) && KindAt(ty, q) == KMap
    ensures Overrides(WritesOf(ty, Env(map[Variable(q) := text], decode))) ==
      match decode(text)
      case Malformed => map[]
      case NullMap => map[q := SNilMap]
      case Entries(m) => map[q := SMap(m)]
  {
    OneVariable(ty, q, text, decode);
  }

  /** So on any complete configuration, that setting becomes that value and all others stay. */
  lemma ShownIsApplied(ty: Ty, q: Path, x: Scalar, decode: string -> DecodedMap, v: Tree)
    requires WellFormed(ty) && WellNamed(ty) && ty.TStruct? && IsLeaf(ty, q) && Typed(ty, v) && Complete(v)
    requires x.HasKind(KindAt(ty, q)) && Showable(x)
    ensures Leaves(ty, ApplyKeys(ty, Env(map[Variable(q) := Show(x)], decode), [Variable(q)], v))
         == Leaves(ty, v)[q := x]
  {
    hide Show, Variable, WellNamed, KindAt, IsLeaf, ApplyKeys, Overrides, ConflictFree, WritesOf, ExactNames, Leaves;
    var k, env := Variable(q), Env(map[Variable(q) := Show(x)], decode);
    assert env.vars.Keys == {k};
    OneVariable(ty, q, Show(x), decode);
    ShownIsWritten(ty, q, x, decode);
    OneKeyApplied(ty, env, k, v);
    PlusOne(Leaves(ty, v), q, x);
  }

  lemma PlusOne(m: Table, q: Path, x: Scalar)
    ensures m + map[q := x] == m[q := x]
  {}

  lemma OneKeyApplied(ty: Ty, env: Env, k: string, v: Tree)
    requires WellFormed(ty) && Typed(ty, v) && Complete(v) && env.vars.Keys == {k} && ConflictFree(WritesOf(ty, env))
    ensures Leaves(ty, ApplyKeys(ty, env, [k], v)) == Leaves(ty, v) + Overrides(WritesOf(ty, env))
  {
    OverridesWhateverTheOrder(WritesOf(ty, env), [k]);
    LeavesOfApplyKeys(ty, env, [k], v);
  }
}
