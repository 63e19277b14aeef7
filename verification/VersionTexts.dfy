/** Versions as texts: every valid version has one strict text, and every reader reads it as that version. */
module VersionTexts {
  import opened Options
  import opened Versions

  // ---------------------------------------------------------------- numbers

  const DIGITS := "0123456789"

  /** The decimal text of a number, by quotient and remainder. */
  function Decimal(n: nat): (s: string)
    ensures s != ""
  {
    if n < 10 then [DIGITS[n]] else Decimal(n / 10) + [DIGITS[n % 10]]
  }

  lemma DigitOf(n: nat)
    requires n < 10
    ensures IsDigit(DIGITS[n]) && DIGITS[n] as nat - '0' as nat == n && (DIGITS[n] == '0' <==> n == 0)
  {
  }

  /** A number's text is numeric and is read as that number. */
  lemma {:induction false} DecimalMeaning(n: nat)
    ensures AllDigits(Decimal(n)) && ToNat(Decimal(n)) == n
    ensures n > 0 ==> Decimal(n)[0] != '0'
    ensures IsNumeric(Decimal(n))
  {
    DigitOf(n % 10);
    if n < 10 {
      assert ToNat("") == 0 && [DIGITS[n]][..0] == "";
    } else {
      DecimalMeaning(n / 10);
      var init := Decimal(n / 10);
      assert Decimal(n)[..|Decimal(n)| - 1] == init;
      hide Decimal;
      assert forall i :: 0 <= i < |init| ==> IsDigit(init[i]);
    }
  }

  /** Every numeric text is the decimal text of the number it is read as. */
  lemma {:induction false} NumericIsDecimal(s: string)
    requires IsNumeric(s)
    ensures Decimal(ToNat(s)) == s
    ensures s[0] != '0' ==> ToNat(s) > 0
  {
    var init, last := s[..|s| - 1], s[|s| - 1];
    assert s == init + [last] && IsDigit(last);
    var d := last as nat - '0' as nat;
    DigitOf(d);
    if init == "" {
      assert ToNat(init) == 0;
    } else {
      assert forall i :: 0 <= i < |init| ==> init[i] == s[i];
      NumericIsDecimal(init);
      assert ToNat(s) / 10 == ToNat(init) && ToNat(s) % 10 == d;
    }
  }

  // ---------------------------------------------------------------- versions

  const CAPITALS := "ABCDEFGHIJKLMNOPQRSTUVWXYZ"
  const SMALL := "abcdefghijklmnopqrstuvwxyz"

  /** An identifier of the standard: a number, or letters, digits and hyphens that are no number. */
  predicate Proper(x: Ident) {
    x.Alpha? ==>
      && (forall c :: c in x.text ==> c in DIGITS || c in CAPITALS || c in SMALL || c == '-')
      && exists c :: c in x.text && c !in DIGITS
  }

  predicate ProperVersion(v: Version) { forall x :: x in v.pre ==> Proper(x) }

  function IdentText(x: Ident): string { match x case Num(n) => Decimal(n) case Alpha(text) => text }

  function Joined(parts: seq<string>): string
    requires parts != []
  {
    if |parts| == 1 then parts[0] else parts[0] + ['.'] + Joined(parts[1..])
  }

  function IdentTexts(pre: seq<Ident>): seq<string> { seq(|pre|, i requires 0 <= i < |pre| => IdentText(pre[i])) }

  /** The text of a version: three numbers, and the identifiers after a hyphen. */
  function Text(v: Version): string {
    var core := Dotted(Decimal(v.major), Decimal(v.minor), Decimal(v.patch));
    if v.pre == [] then core else core + "-" + Joined(IdentTexts(v.pre))
  }

  lemma DigitChars(c: char)
    ensures c in DIGITS <==> IsDigit(c)
  {
    if IsDigit(c) { assert DIGITS[c as nat - '0' as nat] == c; }
  }

  lemma LetterChars(c: char)
    ensures c in CAPITALS <==> IsUpper(c)
    ensures c in SMALL <==> 'a' <= c <= 'z'
  {
    CapitalChars(c);
    SmallChars(c);
  }

  lemma CapitalChars(c: char)
    ensures c in CAPITALS <==> IsUpper(c)
  {
    if IsUpper(c) { assert CAPITALS[c as nat - 'A' as nat] == c; }
  }

  lemma SmallChars(c: char)
    ensures c in SMALL <==> 'a' <= c <= 'z'
  {
    if 'a' <= c <= 'z' { assert SMALL[c as nat - 'a' as nat] == c; }
  }

  lemma ProperText(x: Ident)
    requires Proper(x)
    ensures IsStrictIdent(IdentText(x)) && ToIdent(IdentText(x)) == x && '.' !in IdentText(x)
  {
    match x
    case Num(n) =>
      DecimalMeaning(n);
      assert IsStrictIdent(Decimal(n));
    case Alpha(t) =>
      forall i | 0 <= i < |t| ensures IsIdentChar(t[i]) {
        assert t[i] in t;
        DigitChars(t[i]);
        LetterChars(t[i]);
      }
      var c :| c in t && c !in DIGITS;
      DigitChars(c);
  }

  lemma StrictIsProper(t: string)
    requires IsStrictIdent(t)
    ensures Proper(ToIdent(t)) && IdentText(ToIdent(t)) == t
  {
    if AllDigits(t) {
      NumericIsDecimal(t);
    } else {
      forall c | c in t ensures c in DIGITS || c in CAPITALS || c in SMALL || c == '-' {
        DigitChars(c);
        LetterChars(c);
      }
      var i :| 0 <= i < |t| && !IsDigit(t[i]);
      DigitChars(t[i]);
      assert t[i] in t;
    }
  }

  lemma {:induction false} SplitJoined(parts: seq<string>)
    requires parts != [] && forall p :: p in parts ==> '.' !in p
    ensures Split(Joined(parts), '.') == parts
  {
    if |parts| == 1 {
      SplitOne(parts[0], '.');
    } else {
      SplitJoined(parts[1..]);
      SplitFirst(parts[0], Joined(parts[1..]), '.');
      assert [parts[0]] + parts[1..] == parts;
    }
  }

  lemma JoinedMore(p: string, rest: seq<string>)
    requires rest != []
    ensures Joined([p] + rest) == p + ['.'] + Joined(rest)
  {
    assert ([p] + rest)[1..] == rest;
  }

  lemma JoinedDot(rest: seq<string>)
    requires rest != []
    ensures Joined([""] + rest) == "." + Joined(rest)
  {
    JoinedMore("", rest);
    hide Joined;
  }

  lemma JoinedChar(c: char, rest: seq<string>)
    requires rest != []
    ensures Joined([[c] + rest[0]] + rest[1..]) == [c] + Joined(rest)
  {
    var head, tail := rest[0], rest[1..];
    HeadAndTail(rest);
    if tail == [] {
      assert [[c] + head] + tail == [[c] + head];
    } else {
      hide Joined;
      JoinedMore(head, tail);
      JoinedMore([c] + head, tail);
      CharFirst(c, head, Joined(tail));
    }
  }

  lemma HeadAndTail(parts: seq<string>)
    requires parts != []
    ensures parts == [parts[0]] + parts[1..]
  {
  }

  lemma CharFirst(c: char, head: string, later: string)
    ensures ([c] + head) + ['.'] + later == [c] + (head + ['.'] + later)
  {
  }

  lemma {:induction false} JoinedSplit(s: string)
    ensures Joined(Split(s, '.')) == s
  {
    if s != "" {
      JoinedSplit(s[1..]);
      JoinedDot(Split(s[1..], '.'));
      JoinedChar(s[0], Split(s[1..], '.'));
      hide Joined;
      assert s == [s[0]] + s[1..];
    }
  }

  lemma ReadIdentifiers(pre: seq<Ident>)
    requires pre != [] && forall x :: x in pre ==> Proper(x)
    ensures ParsePre(Joined(IdentTexts(pre))) == Some(pre)
  {
    var parts := IdentTexts(pre);
    forall i | 0 <= i < |parts| ensures IsStrictIdent(parts[i]) && ToIdent(parts[i]) == pre[i] && '.' !in parts[i] {
      ProperText(pre[i]);
    }
    hide IsStrictIdent, ToIdent, Joined, Split;
    SplitJoined(parts);
    assert ToIdents(parts) == pre;
  }

  /** A version's text is read as that version. */
  lemma ReadText(v: Version)
    requires ProperVersion(v)
    ensures ParseStrict(Text(v)) == Some(v)
  {
    var a, b, c := Decimal(v.major), Decimal(v.minor), Decimal(v.patch);
    DecimalMeaning(v.major);
    DecimalMeaning(v.minor);
    DecimalMeaning(v.patch);
    assert |IdentTexts(v.pre)| == |v.pre|;
    hide Decimal, IsNumeric, ToNat, ParseCore, ParsePre, Dotted, Joined, IdentTexts;
    ReadCore(a, b, c);
    if v.pre == [] {
      assert Find(Dotted(a, b, c), '-') == |Dotted(a, b, c)| && Dotted(a, b, c)[..|Dotted(a, b, c)|] == Dotted(a, b, c);
    } else {
      ReadIdentifiers(v.pre);
      FirstDash(Dotted(a, b, c), Joined(IdentTexts(v.pre)));
    }
  }

  lemma CoreIsText(s: string)
    requires ParseCore(s).Some?
    ensures Text(ParseCore(s).value) == s
  {
    var core := Split(s, '.');
    JoinedSplit(s);
    NumericIsDecimal(core[0]);
    NumericIsDecimal(core[1]);
    NumericIsDecimal(core[2]);
    hide Split, IsNumeric, ToNat, Decimal;
    assert core[1..] == [core[1], core[2]] && core[1..][1..] == [core[2]];
    assert Joined([core[2]]) == core[2];
    assert Joined(core[1..]) == core[1] + ['.'] + core[2];
  }

  lemma PreIsText(s: string)
    requires ParsePre(s).Some?
    ensures var pre := ParsePre(s).value;
            pre != [] && Joined(IdentTexts(pre)) == s && forall x :: x in pre ==> Proper(x)
  {
    var parts, pre := Split(s, '.'), ParsePre(s).value;
    JoinedSplit(s);
    forall i | 0 <= i < |parts| ensures Proper(pre[i]) && IdentText(pre[i]) == parts[i] { StrictIsProper(parts[i]); }
    hide Proper, IdentText, Split, Joined;
    assert IdentTexts(pre) == parts;
  }

  /** The strict reader reads nothing but texts of proper versions. */
  lemma ReadIsText(s: string)
    requires ParseStrict(s).Some?
    ensures ProperVersion(ParseStrict(s).value) && Text(ParseStrict(s).value) == s
  {
    hide ParseCore, ParsePre, Joined, IdentTexts, Dotted, Decimal, Proper;
    var dash := Find(s, '-');
    CoreIsText(s[..dash]);
    CoreHasNoPre(s[..dash]);
    if dash == |s| {
      assert s[..dash] == s;
    } else {
      PreIsText(s[dash + 1..]);
      assert s == s[..dash] + "-" + s[dash + 1..];
    }
  }

  lemma CoreHasNoPre(s: string)
    requires ParseCore(s).Some?
    ensures ParseCore(s).value.pre == []
  {
  }

  /** The strict texts are exactly the texts of the proper versions, each of its own one. */
  lemma StrictMeaning(s: string, v: Version)
    ensures ParseStrict(s) == Some(v) <==> ProperVersion(v) && s == Text(v)
  {
    hide ParseStrict, ProperVersion, Text;
    if ProperVersion(v) { ReadText(v); }
    if ParseStrict(s).Some? { ReadIsText(s); }
  }

  // ---------------------------------------------------------------- the gate's reader

  const SPACES := " \t\n\U{b}\U{c}\r\U{1c}\U{1d}\U{1e}\U{1f}"

  ghost predicate Padding(p: string) { forall c :: c in p ==> c in SPACES }

  lemma SpaceChars(c: char)
    ensures c in SPACES <==> IsSpace(c)
  {
    if '\t' <= c <= '\r' { assert SPACES[c as nat - '\t' as nat + 1] == c; }
    if '\U{1c}' <= c <= '\U{1f}' { assert SPACES[c as nat - 22] == c; }
    assert SPACES[0] == ' ';
  }

  predicate Bare(t: string) { t == "" || (!IsSpace(t[0]) && !IsSpace(t[|t| - 1])) }

  lemma {:induction false} LeftPadding(a: string, t: string)
    requires Padding(a) && (t == "" || !IsSpace(t[0]))
    ensures TrimLeft(a + t) == t
  {
    if a == "" {
      assert a + t == t;
    } else {
      assert a[0] in a;
      SpaceChars(a[0]);
      LeftPadding(a[1..], t);
      assert (a + t)[1..] == a[1..] + t;
    }
  }

  lemma {:induction false} RightPadding(t: string, b: string)
    requires Padding(b) && (t == "" || !IsSpace(t[|t| - 1]))
    ensures TrimRight(t + b) == t
  {
    if b == "" {
      assert t + b == t;
    } else {
      assert b[|b| - 1] in b;
      SpaceChars(b[|b| - 1]);
      RightPadding(t, b[..|b| - 1]);
      assert (t + b)[..|t + b| - 1] == t + b[..|b| - 1];
    }
  }

  /** Trimming takes away exactly the whitespace around a text. */
  lemma TrimPadded(a: string, t: string, b: string)
    requires Padding(a) && Padding(b) && Bare(t)
    ensures Trim(a + t + b) == t
  {
    if t == "" {
      assert a + t + b == (a + b) + "";
      LeftPadding(a + b, "");
    } else {
      assert a + t + b == a + (t + b);
      LeftPadding(a, t + b);
      RightPadding(t, b);
    }
  }

  lemma {:induction false} TrimmedLeft(s: string) returns (a: string)
    ensures Padding(a) && s == a + TrimLeft(s) && (TrimLeft(s) != "" ==> !IsSpace(TrimLeft(s)[0]))
  {
    if s != "" && IsSpace(s[0]) {
      SpaceChars(s[0]);
      var rest := TrimmedLeft(s[1..]);
      a := [s[0]] + rest;
      assert s == [s[0]] + s[1..];
    } else {
      a := "";
    }
  }

  lemma {:induction false} TrimmedRight(s: string) returns (b: string)
    ensures Padding(b) && s == TrimRight(s) + b && (TrimRight(s) != "" ==> !IsSpace(TrimRight(s)[|TrimRight(s)| - 1]))
  {
    if s != "" && IsSpace(s[|s| - 1]) {
      SpaceChars(s[|s| - 1]);
      var rest := TrimmedRight(s[..|s| - 1]);
      b := rest + [s[|s| - 1]];
      assert s == s[..|s| - 1] + [s[|s| - 1]];
    } else {
      b := "";
    }
  }

  lemma Trimmed(s: string) returns (a: string, b: string)
    ensures Padding(a) && Padding(b) && Bare(Trim(s)) && s == a + Trim(s) + b
  {
    a := TrimmedLeft(s);
    b := TrimmedRight(TrimLeft(s));
    hide IsSpace, Padding, TrimLeft, TrimRight;
    if Trim(s) != "" { assert Trim(s)[0] == TrimLeft(s)[0]; }
  }

  /** A version's text between whitespace, perhaps after one "v". */
  ghost predicate Marked(s: string, t: string) {
    exists a, mark, b :: Padding(a) && Padding(b) && mark in {"", "v"} && s == a + (mark + t) + b
  }

  /** The gate reads such texts and no others. */
  lemma GateMeaning(s: string, v: Version)
    ensures ParseGate(s) == Some(v) <==> ProperVersion(v) && Marked(s, Text(v))
  {
    if ParseGate(s) == Some(v) {
      StrictMeaning(GateText(s), v);
      GateTextMarked(s);
    }
    if ProperVersion(v) && Marked(s, Text(v)) {
      StrictMeaning(Text(v), v);
      StrictTrimmed(Text(v));
      MarkedGateText(s, Text(v));
    }
    hide ProperVersion, Text, ParseStrict, GateText, Marked;
  }

  lemma GateTextMarked(s: string)
    ensures Marked(s, GateText(s))
  {
    var a, b := Trimmed(s);
    var t := Trim(s);
    if t != "" && t[0] == 'v' {
      assert t == "v" + t[1..];
      assert s == a + ("v" + t[1..]) + b;
    } else {
      assert s == a + ("" + t) + b;
    }
  }

  lemma MarkedGateText(s: string, t: string)
    requires Marked(s, t) && t != "" && IsDigit(t[0]) && !IsSpace(t[|t| - 1])
    ensures GateText(s) == t
  {
    var a, mark, b :| Padding(a) && Padding(b) && mark in {"", "v"} && s == a + (mark + t) + b;
    TrimPadded(a, mark + t, b);
    assert mark == "v" ==> (mark + t)[1..] == t;
    assert mark == "" ==> mark + t == t;
  }

  // ---------------------------------------------------------------- the order of texts

  predicate SmallerTriple(a: Version, b: Version) {
    || a.major < b.major
    || (a.major == b.major && (a.minor < b.minor || (a.minor == b.minor && a.patch < b.patch)))
  }

  /** Releases are ordered by their three numbers, whichever reader compares them. */
  lemma ReleaseOrder(a: Version, b: Version)
    requires a.pre == [] && b.pre == []
    ensures ParseGate(Text(a)) == Some(a) && ParseLoose(Text(a)) == Some(a)
    ensures CompareVersions(Text(a), Text(b)) == -1 <==> SmallerTriple(a, b)
    ensures IsNewer(Text(b), Text(a)) <==> SmallerTriple(a, b)
    ensures Compare(a, b) == -1 <==> SmallerTriple(a, b)
    ensures Precedes(a, b) <==> SmallerTriple(a, b)
  {
    TripleOrder(a, b);
    TripleOrder(b, a);
    ReadAll(a);
    ReadAll(b);
    LowerIsIdentity(a);
    LowerIsIdentity(b);
    hide Text, ParseGate, ParseLoose, LowerVersion, Compare, Precedes, SmallerTriple;
  }

  lemma TripleOrder(a: Version, b: Version)
    requires a.pre == [] && b.pre == []
    ensures Compare(a, b) == -1 <==> SmallerTriple(a, b)
    ensures Compare(a, b) > 0 <==> SmallerTriple(b, a)
    ensures Precedes(a, b) <==> SmallerTriple(a, b)
  {
    hide LexBefore, Lex;
  }

  lemma ReadAll(v: Version)
    requires ProperVersion(v)
    ensures ParseGate(Text(v)) == Some(v) && ParseLoose(Text(v)) == Some(v)
  {
    ReadText(v);
    StrictIsGate(Text(v));
    LooseOfStrict(Text(v));
    hide Text, ParseStrict, ParseGate, ParseLoose;
  }

  /** Texts of versions without uppercase letters are compared as the standard orders the versions. */
  lemma TextOrder(a: Version, b: Version)
    requires ProperVersion(a) && ProperVersion(b) && NoUppercase(a) && NoUppercase(b)
    ensures IsNewer(Text(b), Text(a)) <==> Precedes(a, b)
    ensures CompareVersions(Text(a), Text(b)) == 0 <==> Text(a) == Text(b)
  {
    ReadAll(a);
    ReadAll(b);
    LowercaseAgrees(Text(a), Text(b));
    LowercaseAgrees(Text(b), Text(a));
    CompareIsPrecedence(b, a);
    CompareIsPrecedence(a, b);
    hide Text, ParseGate, ParseLoose, CompareVersions, Precedes, NoUppercase, Compare;
  }

  /** Lowering replaces each capital by its small letter and nothing else. */
  lemma LowerMeaning(s: string, i: nat)
    requires i < |s|
    ensures |Lower(s)| == |s|
    ensures s[i] !in CAPITALS ==> Lower(s)[i] == s[i]
    ensures s[i] in CAPITALS ==> exists k :: SameLetter(k, s[i], Lower(s)[i])
  {
    LetterChars(s[i]);
    assert Lower(s)[i] == LowerChar(s[i]);
    if IsUpper(s[i]) { LowerLetter(s[i]); }
  }

  predicate SameLetter(k: nat, capital: char, small: char) {
    k < 26 && capital == CAPITALS[k] && small == SMALL[k]
  }

  lemma LowerLetter(c: char)
    requires IsUpper(c)
    ensures SameLetter(c as nat - 'A' as nat, c, LowerChar(c))
  {
    assert CAPITALS[c as nat - 'A' as nat] == c;
    assert SMALL[c as nat - 'A' as nat] == LowerChar(c);
  }

  // ---------------------------------------------------------------- the permissive reader

  /** Digits that spell a number, with any zeros in front. */
  ghost predicate Spells(p: string, n: nat) {
    exists zeros :: (forall c :: c in zeros ==> c == '0') && p == zeros + Decimal(n)
  }

  lemma {:induction false} DigitsSpell(p: string)
    requires AllDigits(p)
    ensures Spells(p, ToNat(p))
  {
    if IsNumeric(p) {
      NumericIsDecimal(p);
      assert p == "" + Decimal(ToNat(p));
    } else {
      var rest := p[1..];
      assert forall i :: 0 <= i < |rest| ==> rest[i] == p[i + 1];
      DigitsSpell(rest);
      assert p == "0" + rest;
      ZerosDoNotCount("0", rest);
      hide ToNat, Decimal, IsNumeric, AllDigits;
      OneMoreZero(rest, ToNat(rest));
    }
  }

  lemma OneMoreZero(p: string, n: nat)
    requires Spells(p, n)
    ensures Spells("0" + p, n)
  {
    hide Decimal;
    var zeros :| (forall c :: c in zeros ==> c == '0') && p == zeros + Decimal(n);
    assert "0" + p == ("0" + zeros) + Decimal(n);
  }

  lemma {:induction false} ZerosDoNotCount(zeros: string, p: string)
    requires (forall c :: c in zeros ==> c == '0') && forall i :: 0 <= i < |p| ==> IsDigit(p[i])
    ensures forall i :: 0 <= i < |zeros + p| ==> IsDigit((zeros + p)[i])
    ensures ToNat(zeros + p) == ToNat(p)
  {
    assert forall i :: 0 <= i < |zeros| ==> zeros[i] in zeros;
    var all := zeros + p;
    if p != "" {
      ZerosDoNotCount(zeros, p[..|p| - 1]);
      assert all[..|all| - 1] == zeros + p[..|p| - 1];
    } else if zeros != "" {
      ZerosDoNotCount(zeros[..|zeros| - 1], p);
      assert all[..|all| - 1] == zeros[..|zeros| - 1] + p;
    }
  }

  lemma SpelledIsRead(p: string, n: nat)
    requires Spells(p, n)
    ensures AllDigits(p) && ToNat(p) == n && '.' !in p && '-' !in p
  {
    var zeros :| (forall c :: c in zeros ==> c == '0') && p == zeros + Decimal(n);
    DecimalMeaning(n);
    ZerosDoNotCount(zeros, Decimal(n));
  }

  /** Two or three numbers; a missing third is zero. */
  ghost predicate SpellsCore(parts: seq<string>, v: Version) {
    && |parts| in {2, 3} && Spells(parts[0], v.major) && Spells(parts[1], v.minor)
    && if |parts| == 3 then Spells(parts[2], v.patch) else v.patch == 0
  }

  ghost predicate SpellsIdent(p: string, x: Ident) {
    && (forall c :: c in p ==> c in DIGITS || c in CAPITALS || c in SMALL || c == '-')
    && if x.Num? then Spells(p, x.n) else x.text == p && (p == "" || exists c :: c in p && c !in DIGITS)
  }

  ghost predicate SpellsPre(pieces: seq<string>, pre: seq<Ident>) {
    |pieces| == |pre| && forall i :: 0 <= i < |pre| ==> SpellsIdent(pieces[i], pre[i])
  }

  /** The texts the permissive reader takes for this version. */
  ghost predicate Permissive(t: string, v: Version) {
    exists parts: seq<string> :: SpellsCore(parts, v) &&
      if v.pre == [] then t == Joined(parts) else PermissivePre(t, Joined(parts), v.pre)
  }

  ghost predicate PermissivePre(t: string, core: string, pre: seq<Ident>) {
    exists pieces: seq<string> :: pieces != [] && SpellsPre(pieces, pre) && Joined(pieces) != "" &&
      t == core + "-" + Joined(pieces)
  }

  lemma IdentMeaning(p: string, x: Ident)
    ensures SpellsIdent(p, x) <==> (forall i :: 0 <= i < |p| ==> IsIdentChar(p[i])) && ToIdent(p) == x
  {
    forall i | 0 <= i < |p|
      ensures IsIdentChar(p[i]) <==> p[i] in DIGITS || p[i] in CAPITALS || p[i] in SMALL || p[i] == '-'
      ensures IsDigit(p[i]) <==> p[i] in DIGITS
      ensures p[i] in p
    {
      DigitChars(p[i]);
      LetterChars(p[i]);
    }
    hide IsIdentChar, IsDigit, Spells, ToNat;
    if AllDigits(p) { DigitsSpell(p); }
    if x.Num? && Spells(p, x.n) { SpelledIsRead(p, x.n); }
  }

  lemma NoDotInPiece(p: string)
    requires forall k :: 0 <= k < |p| ==> IsIdentChar(p[k])
    ensures '.' !in p
  {
  }

  lemma CoreOfParts(parts: seq<string>, v: Version)
    requires SpellsCore(parts, v)
    ensures Split(Joined(parts), '.') == parts && '-' !in Joined(parts)
    ensures |parts| in {2, 3} && AllDigits(parts[0]) && AllDigits(parts[1]) && (|parts| == 3 ==> AllDigits(parts[2]))
    ensures ToNat(parts[0]) == v.major && ToNat(parts[1]) == v.minor
    ensures v.patch == if |parts| == 3 then ToNat(parts[2]) else 0
  {
    PartRead(parts, v);
    hide SpellsCore, ToNat, AllDigits, Split;
    SplitJoined(parts);
    NoDash(parts);
  }

  lemma PartRead(parts: seq<string>, v: Version)
    requires SpellsCore(parts, v)
    ensures |parts| in {2, 3} && AllDigits(parts[0]) && AllDigits(parts[1]) && (|parts| == 3 ==> AllDigits(parts[2]))
    ensures ToNat(parts[0]) == v.major && ToNat(parts[1]) == v.minor
    ensures v.patch == if |parts| == 3 then ToNat(parts[2]) else 0
    ensures forall p :: p in parts ==> '.' !in p && '-' !in p
  {
    SpelledIsRead(parts[0], v.major);
    SpelledIsRead(parts[1], v.minor);
    if |parts| == 3 { SpelledIsRead(parts[2], v.patch); }
    hide Spells, ToNat;
  }

  lemma {:induction false} NoDash(parts: seq<string>)
    requires parts != [] && forall p :: p in parts ==> '-' !in p
    ensures '-' !in Joined(parts)
  {
    if |parts| > 1 { NoDash(parts[1..]); }
  }

  /** Every such text is read as the version it spells. */
  lemma PermissiveIsRead(t: string, v: Version)
    requires Permissive(t, v)
    ensures ParseClean(t) == Some(v)
  {
    hide Permissive, PermissivePre, SpellsCore, SpellsPre, Split, ToNat, AllDigits, Joined, IsIdentChar, Find;
    var parts := PartsOf(t, v);
    CoreOfParts(parts, v);
    var core := Joined(parts);
    if v.pre == [] {
      assert Find(t, '-') == |t| && t[..|t|] == t;
    } else {
      var pieces := PiecesOf(t, core, v.pre);
      FirstDash(core, Joined(pieces));
      PiecesRead(pieces, v.pre);
    }
  }

  lemma PartsOf(t: string, v: Version) returns (parts: seq<string>)
    requires Permissive(t, v)
    ensures SpellsCore(parts, v) && |parts| in {2, 3}
    ensures if v.pre == [] then t == Joined(parts) else PermissivePre(t, Joined(parts), v.pre)
  {
    parts :| SpellsCore(parts, v) &&
             if v.pre == [] then t == Joined(parts) else PermissivePre(t, Joined(parts), v.pre);
  }

  lemma PiecesOf(t: string, core: string, pre: seq<Ident>) returns (pieces: seq<string>)
    requires PermissivePre(t, core, pre)
    ensures pieces != [] && SpellsPre(pieces, pre) && Joined(pieces) != "" && t == core + "-" + Joined(pieces)
  {
    pieces :| pieces != [] && SpellsPre(pieces, pre) && Joined(pieces) != "" && t == core + "-" + Joined(pieces);
  }

  lemma PiecesRead(pieces: seq<string>, pre: seq<Ident>)
    requires pieces != [] && SpellsPre(pieces, pre)
    ensures ToIdents(Split(Joined(pieces), '.')) == pre
    ensures forall i :: 0 <= i < |Joined(pieces)| ==> IsIdentChar(Joined(pieces)[i]) || Joined(pieces)[i] == '.'
  {
    forall i | 0 <= i < |pieces|
      ensures ToIdent(pieces[i]) == pre[i] && '.' !in pieces[i]
      ensures forall k :: 0 <= k < |pieces[i]| ==> IsIdentChar(pieces[i][k])
    {
      IdentMeaning(pieces[i], pre[i]);
      NoDotInPiece(pieces[i]);
    }
    hide IsIdentChar, ToIdent, SpellsIdent;
    SplitJoined(pieces);
    CharsOfJoined(pieces);
    assert ToIdents(pieces) == pre;
  }

  lemma {:induction false} CharsOfJoined(pieces: seq<string>)
    requires pieces != []
    requires forall i, k :: 0 <= i < |pieces| && 0 <= k < |pieces[i]| ==> IsIdentChar(pieces[i][k])
    ensures forall i :: 0 <= i < |Joined(pieces)| ==> IsIdentChar(Joined(pieces)[i]) || Joined(pieces)[i] == '.'
  {
    hide IsIdentChar;
    if |pieces| > 1 {
      var rest := pieces[1..];
      assert forall i, k :: 0 <= i < |rest| && 0 <= k < |rest[i]| ==> rest[i][k] == pieces[i + 1][k];
      CharsOfJoined(rest);
    }
  }

  /** What is read is spelled so. */
  lemma ReadIsPermissive(t: string)
    requires ParseClean(t).Some?
    ensures Permissive(t, ParseClean(t).value)
  {
    hide Permissive, PermissivePre, SpellsCore, ToIdents, Joined, IsIdentChar;
    var v, dash := ParseClean(t).value, Find(t, '-');
    var parts := Split(t[..dash], '.');
    JoinedSplit(t[..dash]);
    CoreSpelled(parts, v);
    if dash == |t| {
      assert t[..dash] == t;
      CoreOnly(t, parts, v);
    } else {
      var pre := t[dash + 1..];
      assert t == t[..dash] + "-" + pre;
      JoinedSplit(pre);
      PreSpelled(pre);
      WithPre(t, parts, Split(pre, '.'), v);
    }
  }

  lemma CoreSpelled(parts: seq<string>, v: Version)
    requires |parts| in {2, 3} && AllDigits(parts[0]) && AllDigits(parts[1]) && (|parts| == 3 ==> AllDigits(parts[2]))
    requires v.major == ToNat(parts[0]) && v.minor == ToNat(parts[1])
    requires v.patch == if |parts| == 3 then ToNat(parts[2]) else 0
    ensures SpellsCore(parts, v)
  {
    DigitsSpell(parts[0]);
    DigitsSpell(parts[1]);
    if |parts| == 3 { DigitsSpell(parts[2]); }
    hide Spells, ToNat, AllDigits;
  }

  lemma PreSpelled(pre: string)
    requires forall i :: 0 <= i < |pre| ==> IsIdentChar(pre[i]) || pre[i] == '.'
    ensures SpellsPre(Split(pre, '.'), ToIdents(Split(pre, '.'))) && ToIdents(Split(pre, '.')) != []
  {
    var pieces := Split(pre, '.');
    forall i | 0 <= i < |pieces| ensures SpellsIdent(pieces[i], ToIdent(pieces[i])) {
      forall k | 0 <= k < |pieces[i]| ensures IsIdentChar(pieces[i][k]) { assert pieces[i][k] in pre; }
      IdentMeaning(pieces[i], ToIdent(pieces[i]));
    }
    hide SpellsIdent, ToIdent;
  }

  lemma CoreOnly(t: string, parts: seq<string>, v: Version)
    requires SpellsCore(parts, v) && |parts| in {2, 3} && v.pre == [] && t == Joined(parts)
    ensures Permissive(t, v)
  {
    hide SpellsCore, Joined;
  }

  lemma WithPre(t: string, parts: seq<string>, pieces: seq<string>, v: Version)
    requires SpellsCore(parts, v) && |parts| in {2, 3} && v.pre != []
    requires pieces != [] && SpellsPre(pieces, v.pre) && Joined(pieces) != ""
    requires t == Joined(parts) + "-" + Joined(pieces)
    ensures Permissive(t, v)
  {
    hide SpellsCore, Joined, SpellsPre;
    assert PermissivePre(t, Joined(parts), v.pre);
  }

  /** What the permissive reader takes, exactly: two or three numbers with any leading zeros, and after a
      hyphen any pieces of letters, digits and hyphens, even empty ones, but not nothing. */
  lemma PermissiveMeaning(t: string, v: Version)
    ensures ParseClean(t) == Some(v) <==> Permissive(t, v)
  {
    hide ParseClean, Permissive;
    if Permissive(t, v) { PermissiveIsRead(t, v); }
    if ParseClean(t).Some? { ReadIsPermissive(t); }
  }

  /** Nothing but whitespace, or build metadata after any whitespace. */
  ghost predicate Trailing(rest: string) {
    Padding(rest) || exists p, build :: Padding(p) && rest == p + "+" + build
  }

  /** What the permissive reader takes off a version: whitespace, the word "version", a "v", and build metadata. */
  ghost predicate Dressing(a: string, word: string, b: string, mark: string, c: string, rest: string) {
    && Padding(a) && Padding(b) && Padding(c) && Trailing(rest)
    && Lower(word) in {"", "version "} && Lower(mark) in {"", "v"}
  }

  predicate Undressed(t: string) { t != "" && IsDigit(t[0]) && !IsSpace(t[|t| - 1]) && '+' !in t }

  lemma {:induction false} TrimAfter(y: string, rest: string)
    requires y != "" && !IsSpace(y[|y| - 1])
    ensures TrimRight(y + rest) == y + TrimRight(rest)
  {
    if rest == "" {
      assert y + rest == y;
    } else {
      assert (y + rest)[..|y + rest| - 1] == y + rest[..|rest| - 1];
      TrimAfter(y, rest[..|rest| - 1]);
    }
  }

  lemma {:induction false} TrimRightTwice(s: string)
    ensures TrimRight(TrimRight(s)) == TrimRight(s)
  {
    if s != "" && IsSpace(s[|s| - 1]) { TrimRightTwice(s[..|s| - 1]); }
  }

  lemma TrailingTrimmed(rest: string)
    requires Trailing(rest)
    ensures Trailing(TrimRight(rest))
  {
    if Padding(rest) {
      RightPadding("", rest);
      assert "" + rest == rest;
    } else {
      var p, build :| Padding(p) && rest == p + "+" + build;
      assert rest == (p + "+") + build;
      TrimAfter(p + "+", build);
      assert TrimRight(rest) == p + "+" + TrimRight(build);
    }
  }

  /** Trimming a padded text that starts and ends in "y" with something trailing. */
  lemma TrimFront(pad: string, y: string, rest: string)
    requires Padding(pad) && y != "" && !IsSpace(y[0]) && !IsSpace(y[|y| - 1])
    ensures Trim(pad + (y + rest)) == y + TrimRight(rest)
  {
    LeftPadding(pad, y + rest);
    TrimAfter(y, rest);
  }

  lemma BeforePlus(t: string, rest: string)
    requires Undressed(t) && Trailing(rest)
    ensures Trim((t + rest)[..Find(t + rest, '+')]) == t
  {
    hide Trim, Find;
    var p := CutTrailing(t, rest);
    hide Undressed, Trailing, Padding;
    TrimPadded("", t, p);
    assert "" + t + p == t + p;
  }

  lemma CutTrailing(t: string, rest: string) returns (p: string)
    requires Undressed(t) && Trailing(rest)
    ensures Padding(p) && (t + rest)[..Find(t + rest, '+')] == t + p && Bare(t)
  {
    if Padding(rest) {
      NoPlusIn(rest);
      assert Find(t + rest, '+') == |t + rest| && (t + rest)[..|t + rest|] == t + rest;
      p := rest;
    } else {
      hide Find;
      var build;
      p, build :| Padding(p) && rest == p + "+" + build;
      NoPlusIn(p);
      FirstPlus(t + p, build);
      assert t + rest == (t + p) + "+" + build;
    }
  }

  lemma NoPlusIn(p: string)
    requires Padding(p)
    ensures '+' !in p
  {
  }

  lemma FirstPlus(y: string, build: string)
    requires '+' !in y
    ensures var s := y + "+" + build; s[..Find(s, '+')] == y
  {
    FindAt(y + "+" + build, '+', |y|);
  }

  lemma AfterMark(pad: string, mark: string, c: string, t: string, rest: string)
    requires Padding(pad) && Padding(c) && Lower(mark) in {"", "v"} && Undressed(t)
    ensures var raw := Trim(pad + (mark + c + t + rest));
            (if raw != "" && LowerChar(raw[0]) == 'v' then Trim(raw[1..]) else raw) == t + TrimRight(rest)
    ensures var raw := Trim(pad + (mark + c + t + rest));
            raw != "" && (IsDigit(raw[0]) || (|raw| > 1 && (IsDigit(raw[1]) || IsSpace(raw[1]))))
  {
    hide Trim;
    if mark == "" {
      assert pad + (mark + c + t + rest) == (pad + c) + (t + rest);
      TrimFront(pad + c, t, rest);
      assert IsDigit(t[0]) ==> LowerChar(t[0]) != 'v';
    } else {
      assert Lower(mark)[0] == LowerChar(mark[0]);
      var y := mark + c + t;
      assert y[0] == mark[0] && y[|y| - 1] == t[|t| - 1];
      TrimFront(pad, y, rest);
      var raw := y + TrimRight(rest);
      assert raw[1..] == c + (t + TrimRight(rest));
      TrimFront(c, t, TrimRight(rest));
      TrimRightTwice(rest);
      if c != "" {
        assert c[0] in c && raw[1] == c[0];
        SpaceChars(c[0]);
      } else {
        assert raw[1] == t[0];
      }
    }
  }

  lemma NotTheWord(raw: string)
    requires raw != "" && (IsDigit(raw[0]) || (|raw| > 1 && (IsDigit(raw[1]) || IsSpace(raw[1]))))
    ensures |raw| >= 8 ==> Lower(raw[..8]) != "version "
  {
    if |raw| >= 8 {
      assert Lower(raw[..8])[0] == LowerChar(raw[0]) && Lower(raw[..8])[1] == LowerChar(raw[1]);
      assert "version "[0] == 'v' && "version "[1] == 'e';
    }
  }

  lemma AfterWord(a: string, word: string, y: string, t: string, rest: string)
    requires Padding(a) && Lower(word) == "version " && Undressed(t)
    ensures Trim(a + (word + y + t + rest)) == word + (y + t + TrimRight(rest))
  {
    hide Trim;
    assert Lower(word)[0] == LowerChar(word[0]) && "version "[0] == 'v';
    var z := word + y + t;
    assert z[0] == word[0] && z[|z| - 1] == t[|t| - 1];
    TrimFront(a, z, rest);
  }

  /** All of that is taken off, in any letter case. */
  lemma Undressing(a: string, word: string, b: string, mark: string, c: string, t: string, rest: string)
    requires Dressing(a, word, b, mark, c, rest) && Undressed(t)
    ensures CleanVersion(a + (word + (b + (mark + c + t + rest)))) == t
  {
    WordLength(word);
    hide CleanVersion, Undressed;
    if word == "" {
      assert a + (word + (b + (mark + c + t + rest))) == (a + b) + (mark + c + t + rest);
      UndressMark(a + b, mark, c, t, rest);
    } else {
      UndressWord(a, word, b, mark, c, t, rest);
    }
  }

  lemma UndressMark(pad: string, mark: string, c: string, t: string, rest: string)
    requires Padding(pad) && Padding(c) && Trailing(rest) && Lower(mark) in {"", "v"} && Undressed(t)
    ensures CleanVersion(pad + (mark + c + t + rest)) == t
  {
    hide Trim, Lower, LowerChar, Find, TrimRight, Undressed, Trailing, IsDigit, IsSpace;
    TrailingTrimmed(rest);
    AfterMark(pad, mark, c, t, rest);
    NotTheWord(Trim(pad + (mark + c + t + rest)));
    BeforePlus(t, TrimRight(rest));
  }

  lemma UndressWord(a: string, word: string, b: string, mark: string, c: string, t: string, rest: string)
    requires Dressing(a, word, b, mark, c, rest) && Undressed(t) && Lower(word) == "version " && |word| == 8
    ensures CleanVersion(a + (word + (b + (mark + c + t + rest)))) == t
  {
    hide Trim, Lower, LowerChar, Find, TrimRight, Undressed, Trailing, IsDigit, IsSpace;
    var tail := TrimRight(rest);
    AfterWord(a, word, b + mark + c, t, rest);
    assert a + (word + (b + (mark + c + t + rest))) == a + (word + (b + mark + c) + t + rest);
    assert (b + mark + c) + t + tail == b + (mark + c + t + tail);
    var raw := word + (b + (mark + c + t + tail));
    assert raw[..8] == word && raw[8..] == b + (mark + c + t + tail);
    TrailingTrimmed(rest);
    AfterMark(b, mark, c, t, tail);
    TrimRightTwice(rest);
    BeforePlus(t, tail);
  }

  lemma WordLength(word: string)
    ensures |Lower(word)| == |word|
  {
  }

  /** So a proper version's text is read through any such dressing. */
  lemma DressedIsRead(a: string, word: string, b: string, mark: string, c: string, v: Version, rest: string)
    requires Dressing(a, word, b, mark, c, rest) && ProperVersion(v)
    ensures ParseLoose(a + (word + (b + (mark + c + Text(v) + rest)))) == Some(v)
  {
    ReadText(v);
    CleanIsStrict(Text(v));
    TextUndressed(v);
    hide ParseStrict, Text, CleanVersion, ParseClean, Dressing, Trim, Undressed;
    Undressing(a, word, b, mark, c, Text(v), rest);
  }

  lemma TextUndressed(v: Version)
    requires ProperVersion(v)
    ensures Undressed(Text(v))
  {
    ReadText(v);
    hide ParseStrict, Text, Trim;
    StrictText(Text(v));
    StrictTrimmed(Text(v));
    PlainHasNoPlus(Text(v));
    hide IsIdentChar, IsDigit, IsSpace;
  }

  lemma PlainHasNoPlus(t: string)
    requires forall i :: 0 <= i < |t| ==> IsIdentChar(t[i]) || t[i] == '.'
    ensures '+' !in t
  {
  }
}
