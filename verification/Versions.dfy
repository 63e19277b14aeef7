/** Version order: the strict keys of the database gate and of the update metadata, the permissive
    comparison of the update checker, and section 11 of SemVer 2.0.0 as their common reference. */
module Versions {
  import opened Options

  datatype Ident = Num(n: nat) | Alpha(text: string)

  /** "pre" is empty for a release. */
  datatype Version = Version(major: nat, minor: nat, patch: nat, pre: seq<Ident>)

  // ---------------------------------------------------------------- precedence, as the standard states it

  /** The first place where "a" and "b" differ: "a" ends there, or has the smaller element. */
  ghost predicate LexBefore<T(!new)>(a: seq<T>, b: seq<T>, before: (T, T) -> bool) {
    exists i :: LexAt(a, b, before, i)
  }

  ghost predicate LexAt<T(!new)>(a: seq<T>, b: seq<T>, before: (T, T) -> bool, i: nat) {
    && i <= |a| && i < |b| && a[..i] == b[..i]
    && (i == |a| || before(a[i], b[i]))
  }

  ghost predicate IdentBefore(a: Ident, b: Ident) {
    match (a, b)
    case (Num(m), Num(n)) => m < n
    case (Num(_), Alpha(_)) => true
    case (Alpha(_), Num(_)) => false
    case (Alpha(s), Alpha(t)) => LexBefore(s, t, (x: char, y: char) => x < y)
  }

  ghost predicate Precedes(a: Version, b: Version) {
    || a.major < b.major
    || (a.major == b.major && a.minor < b.minor)
    || (a.major == b.major && a.minor == b.minor && a.patch < b.patch)
    || (a.major == b.major && a.minor == b.minor && a.patch == b.patch &&
        if a.pre == [] then false
        else if b.pre == [] then true
        else LexBefore(a.pre, b.pre, (x, y) => IdentBefore(x, y)))
  }

  // ---------------------------------------------------------------- the keys the code compares

  function Lex<T>(a: seq<T>, b: seq<T>, compare: (T, T) -> int): int {
    if a == [] && b == [] then 0
    else if a == [] then -1
    else if b == [] then 1
    else if compare(a[0], b[0]) != 0 then compare(a[0], b[0])
    else Lex(a[1..], b[1..], compare)
  }

  function CompareInt(a: int, b: int): int { if a < b then -1 else if a > b then 1 else 0 }

  function CompareText(a: string, b: string): int { Lex(a, b, (x: char, y: char) => CompareInt(x as int, y as int)) }

  /** Tuples (0, int) and (1, str) in the strict keys, (0, 0, int) and (0, 1, str) in the permissive one. */
  function CompareIdent(a: Ident, b: Ident): int {
    match (a, b)
    case (Num(m), Num(n)) => CompareInt(m, n)
    case (Num(_), Alpha(_)) => -1
    case (Alpha(_), Num(_)) => 1
    case (Alpha(s), Alpha(t)) => CompareText(s, t)
  }

  function Compare(a: Version, b: Version): int {
    if a.major != b.major then CompareInt(a.major, b.major)
    else if a.minor != b.minor then CompareInt(a.minor, b.minor)
    else if a.patch != b.patch then CompareInt(a.patch, b.patch)
    else if a.pre == [] then (if b.pre == [] then 0 else 1)
    else if b.pre == [] then -1
    else Lex(a.pre, b.pre, (x, y) => CompareIdent(x, y))
  }

  // ---------------------------------------------------------------- the keys realise the standard

  lemma {:induction false} LexMeaning<T(!new)>(a: seq<T>, b: seq<T>, compare: (T, T) -> int, before: (T, T) -> bool)
    requires forall x, y :: compare(x, y) in {-1, 0, 1} && (compare(x, y) == -1 <==> before(x, y))
                         && (compare(x, y) == 1 <==> before(y, x)) && (compare(x, y) == 0 <==> x == y)
    ensures Lex(a, b, compare) in {-1, 0, 1}
    ensures Lex(a, b, compare) == 0 <==> a == b
    ensures Lex(a, b, compare) == -1 <==> LexBefore(a, b, before)
    ensures Lex(a, b, compare) == 1 <==> LexBefore(b, a, before)
  {
    LexHalf(a, b, compare, before);
    LexHalf(b, a, compare, before);
  }

  lemma {:induction false} LexHalf<T(!new)>(a: seq<T>, b: seq<T>, compare: (T, T) -> int, before: (T, T) -> bool)
    requires forall x, y :: compare(x, y) in {-1, 0, 1} && (compare(x, y) == -1 <==> before(x, y))
                         && (compare(x, y) == 1 <==> before(y, x)) && (compare(x, y) == 0 <==> x == y)
    ensures Lex(a, b, compare) in {-1, 0, 1}
    ensures Lex(a, b, compare) == 0 <==> a == b
    ensures Lex(a, b, compare) == -1 <==> LexBefore(a, b, before)
    ensures Lex(a, b, compare) == -Lex(b, a, compare)
  {
    if a == [] {
      if b != [] { assert LexAt(a, b, before, 0); }
    } else if b == [] {
    } else if compare(a[0], b[0]) != 0 {
      if before(a[0], b[0]) { assert LexAt(a, b, before, 0); }
      forall i: nat | LexAt(a, b, before, i) ensures i == 0 {
        if i > 0 { SameHead(a, b, i); }
      }
    } else {
      LexHalf(a[1..], b[1..], compare, before);
      assert a == [a[0]] + a[1..] && b == [b[0]] + b[1..];
      forall i: nat | LexAt(a, b, before, i) ensures LexBefore(a[1..], b[1..], before) {
        assert i > 0;
        assert a[..i] == [a[0]] + a[1..][..i - 1] && b[..i] == [b[0]] + b[1..][..i - 1];
        assert a[1..][..i - 1] == a[..i][1..];
        assert LexAt(a[1..], b[1..], before, i - 1);
      }
      forall i: nat | LexAt(a[1..], b[1..], before, i) ensures LexBefore(a, b, before) {
        assert a[..i + 1] == [a[0]] + a[1..][..i] && b[..i + 1] == [b[0]] + b[1..][..i];
        assert LexAt(a, b, before, i + 1);
      }
    }
  }

  lemma SameHead<T>(a: seq<T>, b: seq<T>, i: nat)
    requires 0 < i <= |a| && i <= |b| && a[..i] == b[..i]
    ensures a[0] == b[0]
  {
    assert a[..i][0] == a[0] && b[..i][0] == b[0];
  }

  lemma CompareTextMeaning(a: string, b: string)
    ensures CompareText(a, b) in {-1, 0, 1}
    ensures CompareText(a, b) == 0 <==> a == b
    ensures CompareText(a, b) == -1 <==> IdentBefore(Alpha(a), Alpha(b))
    ensures CompareText(a, b) == 1 <==> IdentBefore(Alpha(b), Alpha(a))
  {
    LexMeaning(a, b, (x: char, y: char) => CompareInt(x as int, y as int), (x: char, y: char) => x < y);
  }

  lemma CompareIdentMeaning(a: Ident, b: Ident)
    ensures CompareIdent(a, b) in {-1, 0, 1}
    ensures CompareIdent(a, b) == 0 <==> a == b
    ensures CompareIdent(a, b) == -1 <==> IdentBefore(a, b)
    ensures CompareIdent(a, b) == 1 <==> IdentBefore(b, a)
  {
    if a.Alpha? && b.Alpha? { CompareTextMeaning(a.text, b.text); }
  }

  /** The strict key order is exactly SemVer precedence; equal keys are equal versions. */
  lemma CompareIsPrecedence(a: Version, b: Version)
    ensures Compare(a, b) in {-1, 0, 1}
    ensures Compare(a, b) == -1 <==> Precedes(a, b)
    ensures Compare(a, b) == 1 <==> Precedes(b, a)
    ensures Compare(a, b) == 0 <==> a == b
  {
    forall x, y
      ensures CompareIdent(x, y) in {-1, 0, 1} && (CompareIdent(x, y) == -1 <==> IdentBefore(x, y))
           && (CompareIdent(x, y) == 1 <==> IdentBefore(y, x)) && (CompareIdent(x, y) == 0 <==> x == y)
    {
      CompareIdentMeaning(x, y);
    }
    LexMeaning(a.pre, b.pre, (x, y) => CompareIdent(x, y), (x, y) => IdentBefore(x, y));
  }

  lemma MajorFollows(a: Version, b: Version)
    ensures Compare(a, b) <= 0 ==> a.major <= b.major
    ensures Precedes(a, b) ==> a.major <= b.major
  {
  }

  lemma {:induction false} LexTransitive<T(!new)>(a: seq<T>, b: seq<T>, c: seq<T>, compare: (T, T) -> int)
    requires forall x, y :: compare(x, y) == 0 <==> x == y
    requires forall x, y, z :: compare(x, y) == -1 && compare(y, z) == -1 ==> compare(x, z) == -1
    requires Lex(a, b, compare) == -1 && Lex(b, c, compare) == -1
    ensures Lex(a, c, compare) == -1
  {
    if a != [] && b != [] && c != [] && compare(a[0], b[0]) == 0 && compare(b[0], c[0]) == 0 {
      LexTransitive(a[1..], b[1..], c[1..], compare);
    }
  }

  lemma CompareIdentTransitive(x: Ident, y: Ident, z: Ident)
    requires CompareIdent(x, y) == -1 && CompareIdent(y, z) == -1
    ensures CompareIdent(x, z) == -1
  {
    if x.Alpha? && y.Alpha? && z.Alpha? {
      LexTransitive(x.text, y.text, z.text, (x: char, y: char) => CompareInt(x as int, y as int));
    }
  }

  /** With CompareIsPrecedence: a strict total order. */
  lemma PrecedesTransitive(a: Version, b: Version, c: Version)
    requires Precedes(a, b) && Precedes(b, c)
    ensures Precedes(a, c)
  {
    CompareIsPrecedence(a, b);
    CompareIsPrecedence(b, c);
    CompareIsPrecedence(a, c);
    if a.pre != [] && b.pre != [] && c.pre != [] {
      forall x, y ensures CompareIdent(x, y) == 0 <==> x == y { CompareIdentMeaning(x, y); }
      forall x, y, z | CompareIdent(x, y) == -1 && CompareIdent(y, z) == -1 ensures CompareIdent(x, z) == -1 {
        CompareIdentTransitive(x, y, z);
      }
      if && Lex(a.pre, b.pre, (x, y) => CompareIdent(x, y)) == -1
         && Lex(b.pre, c.pre, (x, y) => CompareIdent(x, y)) == -1
      {
        LexTransitive(a.pre, b.pre, c.pre, (x, y) => CompareIdent(x, y));
      }
    }
  }

  // ---------------------------------------------------------------- text

  predicate IsDigit(c: char) { '0' <= c <= '9' }
  predicate IsUpper(c: char) { 'A' <= c <= 'Z' }
  predicate IsIdentChar(c: char) { IsDigit(c) || IsUpper(c) || 'a' <= c <= 'z' || c == '-' }
  /** What Python's strip removes from ASCII text. */
  predicate IsSpace(c: char) { c == ' ' || '\t' <= c <= '\r' || '\U{1c}' <= c <= '\U{1f}' }

  predicate AllDigits(s: string) { s != "" && forall i :: 0 <= i < |s| ==> IsDigit(s[i]) }

  function ToNat(s: string): nat
    requires forall i :: 0 <= i < |s| ==> IsDigit(s[i])
  {
    if s == "" then 0
    else
      assert IsDigit(s[|s| - 1]);
      10 * ToNat(s[..|s| - 1]) + (s[|s| - 1] as nat - '0' as nat)
  }

  function LowerChar(c: char): char { if IsUpper(c) then c - 'A' + 'a' else c }

  function Lower(s: string): string { seq(|s|, i requires 0 <= i < |s| => LowerChar(s[i])) }

  function TrimLeft(s: string): string { if s != "" && IsSpace(s[0]) then TrimLeft(s[1..]) else s }

  function TrimRight(s: string): string { if s != "" && IsSpace(s[|s| - 1]) then TrimRight(s[..|s| - 1]) else s }

  function Trim(s: string): string { TrimRight(TrimLeft(s)) }

  /** The pieces between separators: always at least one, possibly empty. */
  function Split(s: string, sep: char): (parts: seq<string>)
    ensures |parts| >= 1
    ensures forall k, i :: 0 <= k < |parts| && 0 <= i < |parts[k]| ==> parts[k][i] in s && parts[k][i] != sep
  {
    if s == "" then [""]
    else if s[0] == sep then [""] + Split(s[1..], sep)
    else var rest := Split(s[1..], sep); [[s[0]] + rest[0]] + rest[1..]
  }

  /** Index of the first "c", or the length. */
  function Find(s: string, c: char): (i: nat)
    ensures i <= |s| && (forall k :: 0 <= k < i ==> s[k] != c) && (i < |s| ==> s[i] == c)
  {
    if s == "" || s[0] == c then 0 else 1 + Find(s[1..], c)
  }

  predicate IsNumeric(s: string) { AllDigits(s) && (|s| > 1 ==> s[0] != '0') }

  predicate IsStrictIdent(s: string) {
    && s != "" && (forall i :: 0 <= i < |s| ==> IsIdentChar(s[i]))
    && (AllDigits(s) ==> IsNumeric(s))
  }

  function ToIdent(s: string): Ident { if AllDigits(s) then Num(ToNat(s)) else Alpha(s) }

  function ToIdents(parts: seq<string>): seq<Ident> { seq(|parts|, i requires 0 <= i < |parts| => ToIdent(parts[i])) }

  function ParseCore(s: string): Option<Version> {
    var core := Split(s, '.');
    if |core| == 3 && IsNumeric(core[0]) && IsNumeric(core[1]) && IsNumeric(core[2])
    then Some(Version(ToNat(core[0]), ToNat(core[1]), ToNat(core[2]), []))
    else None
  }

  function ParsePre(s: string): Option<seq<Ident>> {
    var parts := Split(s, '.');
    if forall i :: 0 <= i < |parts| ==> IsStrictIdent(parts[i]) then Some(ToIdents(parts)) else None
  }

  /** The strict grammar: three numbers, an optional pre-release, no build metadata. */
  function ParseStrict(s: string): Option<Version> {
    var dash := Find(s, '-');
    var core := ParseCore(s[..dash]);
    if core.None? || dash == |s| then core
    else
      var pre := ParsePre(s[dash + 1..]);
      if pre.None? then None else Some(core.value.(pre := pre.value))
  }

  /** The database gate trims its text and allows one leading "v". */
  function GateText(s: string): string {
    var t := Trim(s);
    if t != "" && t[0] == 'v' then t[1..] else t
  }

  function ParseGate(s: string): Option<Version> { ParseStrict(GateText(s)) }

  function CleanVersion(s: string): string {
    var raw := Trim(s);
    var raw := if |raw| >= 8 && Lower(raw[..8]) == "version " then Trim(raw[8..]) else raw;
    var raw := if raw != "" && LowerChar(raw[0]) == 'v' then Trim(raw[1..]) else raw;
    Trim(raw[..Find(raw, '+')])
  }

  /** The permissive parser of the update checker: two or three numbers, leading zeros allowed, and any
      run of identifier characters and dots after the dash. */
  function ParseLoose(s: string): Option<Version> { ParseClean(CleanVersion(s)) }

  function ParseClean(t: string): Option<Version> {
    var dash := Find(t, '-');
    var core := Split(t[..dash], '.');
    if |core| !in {2, 3} || exists i :: 0 <= i < |core| && !AllDigits(core[i]) then None
    else
      var patch := if |core| == 3 then ToNat(core[2]) else 0;
      if dash == |t| then Some(Version(ToNat(core[0]), ToNat(core[1]), patch, []))
      else
        var pre := t[dash + 1..];
        if pre == "" || exists i :: 0 <= i < |pre| && !IsIdentChar(pre[i]) && pre[i] != '.' then None
        else Some(Version(ToNat(core[0]), ToNat(core[1]), patch, ToIdents(Split(pre, '.'))))
  }

  function LowerIdent(x: Ident): Ident { match x case Num(n) => x case Alpha(t) => Alpha(Lower(t)) }

  /** _pre_key lowers the text identifiers before comparing them. */
  function LowerVersion(v: Version): Version {
    v.(pre := seq(|v.pre|, i requires 0 <= i < |v.pre| => LowerIdent(v.pre[i])))
  }

  /** An unreadable version compares as equal to everything. */
  function CompareVersions(a: string, b: string): int {
    var va, vb := ParseLoose(a), ParseLoose(b);
    if va.None? || vb.None? then 0 else Compare(LowerVersion(va.value), LowerVersion(vb.value))
  }

  predicate IsNewer(latest: string, current: string) {
    ParseLoose(latest).Some? && ParseLoose(current).Some? && CompareVersions(latest, current) > 0
  }

  // ---------------------------------------------------------------- the three readers agree

  lemma {:induction false} SplitChars(s: string, sep: char, i: nat)
    requires i < |s| && s[i] != sep
    ensures exists k :: 0 <= k < |Split(s, sep)| && s[i] in Split(s, sep)[k]
  {
    var rest := Split(s[1..], sep);
    if i == 0 {
      assert s[0] in Split(s, sep)[0];
    } else {
      SplitChars(s[1..], sep, i - 1);
      var k :| 0 <= k < |rest| && s[i] in rest[k];
      if s[0] == sep {
        assert Split(s, sep)[k + 1] == rest[k];
      } else if k == 0 {
        assert s[i] in Split(s, sep)[0];
      } else {
        assert Split(s, sep)[k] == rest[k];
      }
    }
  }

  lemma {:induction false} SplitOne(s: string, sep: char)
    requires sep !in s
    ensures Split(s, sep) == [s]
  {
    if s != "" {
      SplitOne(s[1..], sep);
      assert [s[0]] + s[1..] == s;
    }
  }

  lemma {:induction false} SplitFirst(a: string, b: string, sep: char)
    requires sep !in a
    ensures Split(a + [sep] + b, sep) == [a] + Split(b, sep)
  {
    if a == "" {
      assert a + [sep] + b == [sep] + b;
      SplitCons(sep, b, sep);
    } else {
      SplitFirst(a[1..], b, sep);
      assert a + [sep] + b == [a[0]] + (a[1..] + [sep] + b);
      SplitCons(a[0], a[1..] + [sep] + b, sep);
      assert [a[0]] + a[1..] == a;
    }
  }

  lemma CoreText(s: string)
    requires ParseCore(s).Some?
    ensures s != "" && IsDigit(s[0]) && forall i :: 0 <= i < |s| ==> IsDigit(s[i]) || s[i] == '.'
  {
    var core := Split(s, '.');
    forall i | 0 <= i < |s| ensures IsDigit(s[i]) || s[i] == '.' {
      if s[i] != '.' {
        SplitChars(s, '.', i);
        var k :| 0 <= k < |core| && s[i] in core[k];
        assert k == 0 || k == 1 || k == 2;
      }
    }
    assert core[0] != "";
  }

  lemma PreText(s: string)
    requires ParsePre(s).Some?
    ensures s != "" && forall i :: 0 <= i < |s| ==> IsIdentChar(s[i]) || s[i] == '.'
  {
    var parts := Split(s, '.');
    assert IsStrictIdent(parts[0]);
    forall i | 0 <= i < |s| ensures IsIdentChar(s[i]) || s[i] == '.' {
      if s[i] != '.' {
        SplitChars(s, '.', i);
        var k :| 0 <= k < |parts| && s[i] in parts[k];
        assert IsStrictIdent(parts[k]);
      }
    }
  }

  /** A strict version text starts with a digit and holds identifier characters and dots only. */
  lemma StrictText(s: string)
    requires ParseStrict(s).Some?
    ensures s != "" && IsDigit(s[0])
    ensures forall i :: 0 <= i < |s| ==> IsIdentChar(s[i]) || s[i] == '.'
  {
    var dash := Find(s, '-');
    CoreText(s[..dash]);
    if dash < |s| {
      PreText(s[dash + 1..]);
      forall i | dash < i < |s| ensures IsIdentChar(s[i]) || s[i] == '.' { assert s[dash + 1..][i - dash - 1] == s[i]; }
    }
    forall i | 0 <= i < dash ensures IsIdentChar(s[i]) || s[i] == '.' { assert s[..dash][i] == s[i]; }
  }

  lemma TrimIdentity(s: string)
    requires s == "" || (!IsSpace(s[0]) && !IsSpace(s[|s| - 1]))
    ensures Trim(s) == s
  {
  }

  lemma NotTheWordVersion(t: string)
    requires t != "" && (IsDigit(t[0]) || (|t| > 1 && IsDigit(t[1])))
    ensures |t| >= 8 ==> Lower(t[..8]) != "version "
  {
    if |t| >= 8 {
      assert Lower(t[..8])[0] == LowerChar(t[0]) && Lower(t[..8])[1] == LowerChar(t[1]);
      assert "version "[0] == 'v' && "version "[1] == 'e';
    }
  }

  lemma NoPlus(t: string)
    requires forall i :: 0 <= i < |t| ==> IsIdentChar(t[i]) || t[i] == '.'
    ensures t[..Find(t, '+')] == t
  {
    assert forall i :: 0 <= i < |t| ==> t[i] != '+';
  }

  lemma CleanOfGate(s: string)
    requires ParseGate(s).Some?
    ensures CleanVersion(s) == GateText(s)
  {
    var t, core := Trim(s), GateText(s);
    StrictText(core);
    assert IsIdentChar(core[|core| - 1]) || core[|core| - 1] == '.';
    TrimIdentity(core);
    NotTheWordVersion(t);
    NoPlus(core);
    hide Trim, Find, ParseStrict, Lower;
  }

  lemma CleanIsStrict(t: string)
    requires ParseStrict(t).Some?
    ensures ParseClean(t) == ParseStrict(t)
  {
    var dash := Find(t, '-');
    var core := Split(t[..dash], '.');
    assert forall i :: 0 <= i < |core| ==> AllDigits(core[i]);
    if dash < |t| { PreText(t[dash + 1..]); }
  }

  lemma LooseOfStrict(s: string)
    requires ParseGate(s).Some?
    ensures ParseLoose(s) == ParseGate(s)
  {
    CleanOfGate(s);
    CleanIsStrict(GateText(s));
    hide Trim, GateText, CleanVersion, ParseStrict, ParseClean;
  }

  /** On everything the gate can read, compare_versions is the strict order of the lowered versions. */
  lemma CompareVersionsOnStrict(a: string, b: string)
    ensures var va, vb := ParseGate(a), ParseGate(b);
            va.Some? && vb.Some? ==> CompareVersions(a, b) == Compare(LowerVersion(va.value), LowerVersion(vb.value))
  {
    if ParseGate(a).Some? { LooseOfStrict(a); }
    if ParseGate(b).Some? { LooseOfStrict(b); }
    hide ParseGate, ParseLoose, Compare, LowerVersion;
  }

  predicate NoUppercase(v: Version) {
    forall i :: 0 <= i < |v.pre| && v.pre[i].Alpha? ==>
      forall k :: 0 <= k < |v.pre[i].text| ==> !IsUpper(v.pre[i].text[k])
  }

  lemma LowerIsIdentity(v: Version)
    ensures LowerVersion(v) == v <==> NoUppercase(v)
  {
    if NoUppercase(v) {
      forall i | 0 <= i < |v.pre| ensures LowerIdent(v.pre[i]) == v.pre[i] {
        if v.pre[i].Alpha? { assert Lower(v.pre[i].text) == v.pre[i].text; }
      }
      assert LowerVersion(v).pre == v.pre;
    } else {
      var i :| 0 <= i < |v.pre| && v.pre[i].Alpha? && exists k :: 0 <= k < |v.pre[i].text| && IsUpper(v.pre[i].text[k]);
      var k :| 0 <= k < |v.pre[i].text| && IsUpper(v.pre[i].text[k]);
      assert LowerVersion(v).pre[i] == LowerIdent(v.pre[i]);
      assert Lower(v.pre[i].text)[k] != v.pre[i].text[k];
    }
  }

  /** Without uppercase letters all three readers order versions as the standard does. */
  lemma LowercaseAgrees(a: string, b: string)
    ensures var va, vb := ParseGate(a), ParseGate(b);
            va.Some? && vb.Some? && NoUppercase(va.value) && NoUppercase(vb.value) ==>
              && CompareVersions(a, b) == Compare(va.value, vb.value)
              && (CompareVersions(a, b) < 0 <==> Precedes(va.value, vb.value))
              && (CompareVersions(a, b) == 0 <==> va == vb)
  {
    var va, vb := ParseGate(a), ParseGate(b);
    if va.Some? && vb.Some? {
      CompareVersionsOnStrict(a, b);
      LowerIsIdentity(va.value);
      LowerIsIdentity(vb.value);
      CompareIsPrecedence(va.value, vb.value);
    }
    hide ParseGate, CompareVersions, Compare, LowerVersion, NoUppercase, Precedes;
  }

  function LowerAll(parts: seq<string>): seq<string> {
    if parts == [] then [] else [Lower(parts[0])] + LowerAll(parts[1..])
  }

  lemma {:induction false} LowerAllAt(parts: seq<string>, k: nat)
    requires k < |parts|
    ensures |LowerAll(parts)| == |parts| && LowerAll(parts)[k] == Lower(parts[k])
  {
    if |parts| > 1 { LowerAllAt(parts[1..], if k == 0 then 0 else k - 1); }
  }

  lemma SplitCons(c: char, t: string, sep: char)
    ensures Split([c] + t, sep)
         == if c == sep then [""] + Split(t, sep) else [[c] + Split(t, sep)[0]] + Split(t, sep)[1..]
  {
    assert ([c] + t)[1..] == t;
  }

  lemma LowerCons(c: char, t: string)
    ensures Lower([c] + t) == [LowerChar(c)] + Lower(t)
  {
  }

  lemma {:induction false} SplitLower(s: string, sep: char)
    requires !IsUpper(sep) && !('a' <= sep <= 'z')
    ensures Split(Lower(s), sep) == LowerAll(Split(s, sep))
  {
    if s == "" {
      assert Lower(s) == "";
    } else {
      var c, t := s[0], s[1..];
      assert s == [c] + t;
      SplitLower(t, sep);
      SplitCons(c, t, sep);
      LowerCons(c, t);
      SplitCons(LowerChar(c), Lower(t), sep);
      LowerCons(c, Split(t, sep)[0]);
      hide Split, Lower;
    }
  }

  lemma LowerStrictIdent(p: string)
    requires IsStrictIdent(p)
    ensures IsStrictIdent(Lower(p)) && ToIdent(Lower(p)) == LowerIdent(ToIdent(p))
  {
    var q := Lower(p);
    assert forall i :: 0 <= i < |p| ==> (IsDigit(q[i]) <==> IsDigit(p[i])) && (IsDigit(p[i]) ==> q[i] == p[i]);
    if AllDigits(p) {
      assert q == p;
    } else {
      var i :| 0 <= i < |p| && !IsDigit(p[i]);
      assert !IsDigit(q[i]);
    }
  }

  lemma LowerCore(s: string)
    requires ParseCore(s).Some?
    ensures Lower(s) == s
  {
    CoreText(s);
  }

  lemma LowerPre(s: string)
    requires ParsePre(s).Some?
    ensures var lowered := ParsePre(Lower(s));
            && lowered.Some? && |lowered.value| == |ParsePre(s).value|
            && forall i :: 0 <= i < |lowered.value| ==> lowered.value[i] == LowerIdent(ParsePre(s).value[i])
  {
    var parts := Split(s, '.');
    SplitLower(s, '.');
    forall i | 0 <= i < |parts|
      ensures |LowerAll(parts)| == |parts| && LowerAll(parts)[i] == Lower(parts[i])
      ensures IsStrictIdent(Lower(parts[i])) && ToIdent(Lower(parts[i])) == LowerIdent(ToIdent(parts[i]))
    {
      LowerAllAt(parts, i);
      LowerStrictIdent(parts[i]);
    }
    LowerAllAt(parts, 0);
  }

  lemma {:induction false} FindLowered(t: string)
    ensures Find(Lower(t), '-') == Find(t, '-')
  {
    if t != "" {
      LowerCons(t[0], t[1..]);
      assert t == [t[0]] + t[1..];
      assert Lower(t)[1..] == Lower(t[1..]);
      FindLowered(t[1..]);
    }
  }

  lemma SlicesLowered(t: string, i: nat)
    requires i <= |t|
    ensures Lower(t)[..i] == Lower(t[..i]) && Lower(t)[i..] == Lower(t[i..])
  {
  }

  lemma ParseLowered(t: string)
    requires ParseStrict(t).Some?
    ensures ParseStrict(Lower(t)) == Some(LowerVersion(ParseStrict(t).value))
  {
    var u, dash := Lower(t), Find(t, '-');
    FindLowered(t);
    SlicesLowered(t, dash);
    LowerCore(t[..dash]);
    hide ParseCore, ParsePre, Lower, Find;
    if dash < |t| {
      SlicesLowered(t, dash + 1);
      LowerPre(t[dash + 1..]);
      assert ParseStrict(u).value.pre == LowerVersion(ParseStrict(t).value).pre;
    } else {
      assert ParseStrict(u).value.pre == LowerVersion(ParseStrict(t).value).pre;
    }
  }

  /** The restriction is needed for every version with an uppercase letter: the checker calls it equal
      to its lower-case twin, which the strict readers accept as a different version. */
  lemma UppercaseDisagrees(a: string)
    ensures var va, twin := ParseGate(a), Lower(GateText(a));
            va.Some? && !NoUppercase(va.value) ==>
              && ParseStrict(twin) == Some(LowerVersion(va.value))
              && CompareVersions(a, twin) == 0
              && Compare(va.value, ParseStrict(twin).value) != 0
  {
    if ParseGate(a).Some? {
      var v, twin := ParseGate(a).value, Lower(GateText(a));
      ParseLowered(GateText(a));
      LowerIsIdentity(v);
      CompareIsPrecedence(v, LowerVersion(v));
      StrictIsGate(twin);
      CompareVersionsOnStrict(a, twin);
      LowerTwice(v);
      CompareIsPrecedence(LowerVersion(v), LowerVersion(LowerVersion(v)));
      hide CompareVersions, Compare, LowerVersion, NoUppercase, ParseStrict, GateText, Lower;
    }
  }

  lemma StrictTrimmed(t: string)
    requires ParseStrict(t).Some?
    ensures t != "" && IsDigit(t[0]) && !IsSpace(t[|t| - 1]) && Trim(t) == t
  {
    StrictText(t);
    hide ParseStrict;
    assert IsIdentChar(t[|t| - 1]) || t[|t| - 1] == '.';
    TrimIdentity(t);
  }

  lemma UpperAt(t: string, i: nat)
    requires i < |t| && IsUpper(t[i])
    ensures Lower(t) != t
  {
    assert Lower(t)[i] == LowerChar(t[i]);
  }

  lemma StrictIsGate(t: string)
    requires ParseStrict(t).Some?
    ensures ParseGate(t) == ParseStrict(t)
  {
    StrictTrimmed(t);
    hide ParseStrict, Trim;
  }

  lemma LowerTwice(v: Version)
    ensures LowerVersion(LowerVersion(v)) == LowerVersion(v)
  {
    forall i | 0 <= i < |v.pre| ensures LowerIdent(LowerIdent(v.pre[i])) == LowerIdent(v.pre[i]) {
      if v.pre[i].Alpha? { assert Lower(Lower(v.pre[i].text)) == Lower(v.pre[i].text); }
    }
    assert LowerVersion(LowerVersion(v)).pre == LowerVersion(v).pre;
  }

  // ---------------------------------------------------------------- reading given texts

  function Dotted(a: string, b: string, c: string): string { a + ['.'] + (b + ['.'] + c) }

  lemma NoDots(s: string)
    requires AllDigits(s)
    ensures '.' !in s && '-' !in s
  {
  }

  lemma SplitThree(a: string, b: string, c: string)
    requires '.' !in a && '.' !in b && '.' !in c
    ensures Split(Dotted(a, b, c), '.') == [a, b, c]
  {
    SplitFirst(a, b + ['.'] + c, '.');
    SplitFirst(b, c, '.');
    SplitOne(c, '.');
    hide Split;
    assert [a] + ([b] + [c]) == [a, b, c];
  }

  /** Three numbers joined by dots are read as that release by every reader. */
  lemma ReadCore(a: string, b: string, c: string)
    requires IsNumeric(a) && IsNumeric(b) && IsNumeric(c)
    ensures ParseCore(Dotted(a, b, c)) == Some(Version(ToNat(a), ToNat(b), ToNat(c), []))
    ensures '-' !in Dotted(a, b, c)
  {
    NoDots(a);
    NoDots(b);
    NoDots(c);
    SplitThree(a, b, c);
    hide Split, IsNumeric, ToNat;
  }

  lemma ReadRelease(a: string, b: string, c: string)
    requires IsNumeric(a) && IsNumeric(b) && IsNumeric(c)
    ensures var r := Some(Version(ToNat(a), ToNat(b), ToNat(c), []));
            ParseStrict(Dotted(a, b, c)) == r && ParseGate(Dotted(a, b, c)) == r && ParseLoose(Dotted(a, b, c)) == r
  {
    var s := Dotted(a, b, c);
    ReadCore(a, b, c);
    hide ParseCore, Dotted, IsNumeric, ToNat;
    assert Find(s, '-') == |s| && s[..|s|] == s;
    StrictIsGate(s);
    LooseOfStrict(s);
  }

  /** A release followed by one text identifier. */
  lemma ReadPreRelease(a: string, b: string, c: string, pre: string)
    requires IsNumeric(a) && IsNumeric(b) && IsNumeric(c)
    requires pre != "" && (forall i :: 0 <= i < |pre| ==> IsIdentChar(pre[i])) && !AllDigits(pre)
    ensures ParseStrict(Dotted(a, b, c) + "-" + pre) == Some(Version(ToNat(a), ToNat(b), ToNat(c), [Alpha(pre)]))
  {
    ReadCore(a, b, c);
    ReadOneIdentifier(pre);
    FirstDash(Dotted(a, b, c), pre);
    hide ParseCore, ParsePre, Dotted, IsNumeric, ToNat, AllDigits, Find, IsIdentChar;
  }

  lemma FirstDash(core: string, pre: string)
    requires '-' !in core
    ensures var s := core + "-" + pre; Find(s, '-') == |core| && s[..|core|] == core && s[|core| + 1..] == pre
  {
    var s := core + "-" + pre;
    assert forall i :: 0 <= i < |core| ==> s[i] == core[i] && core[i] in core;
    FindAt(s, '-', |core|);
  }

  lemma ReadOneIdentifier(pre: string)
    requires pre != "" && (forall i :: 0 <= i < |pre| ==> IsIdentChar(pre[i])) && !AllDigits(pre)
    ensures ParsePre(pre) == Some([Alpha(pre)])
  {
    assert '.' !in pre;
    SplitOne(pre, '.');
    assert ToIdents([pre]) == [Alpha(pre)];
  }

  lemma {:induction false} FindAt(s: string, c: char, i: nat)
    requires i < |s| && s[i] == c && forall k :: 0 <= k < i ==> s[k] != c
    ensures Find(s, c) == i
  {
    if i > 0 { FindAt(s[1..], c, i - 1); }
  }
}
