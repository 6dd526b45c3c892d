/** The string operations the planners and codecs rest on. Strings are sequences of
    characters; white space and letter case are those of ASCII. */
module Text {
  import opened Wrappers

  predicate IsSpace(c: char) {
    c == ' ' || c == '\t' || c == '\n' || c == '\r' || c == '\U{000B}' || c == '\U{000C}'
  }

  // ---- trimming ----

  function TrimLeft(s: string): string {
    if s != [] && IsSpace(s[0]) then TrimLeft(s[1..]) else s
  }

  function TrimRight(s: string): string {
    if s != [] && IsSpace(s[|s| - 1]) then TrimRight(s[..|s| - 1]) else s
  }

  function Trim(s: string): string {
    TrimRight(TrimLeft(s))
  }

  /** No white space at either end: what `Trim` leaves alone. */
  predicate Trimmed(s: string) {
    s != [] ==> !IsSpace(s[0]) && !IsSpace(s[|s| - 1])
  }

  // ---- letter case ----

  function LowerChar(c: char): char {
    if 'A' <= c <= 'Z' then c - 'A' + 'a' else c
  }

  function UpperChar(c: char): char {
    if 'a' <= c <= 'z' then c - 'a' + 'A' else c
  }

  function ToLower(s: string): string {
    seq(|s|, i requires 0 <= i < |s| => LowerChar(s[i]))
  }

  function ToUpper(s: string): string {
    seq(|s|, i requires 0 <= i < |s| => UpperChar(s[i]))
  }

  /** Equality up to letter case. */
  predicate EqualFold(s: string, t: string) {
    |s| == |t| && forall i :: 0 <= i < |s| ==> LowerChar(s[i]) == LowerChar(t[i])
  }

  predicate UpperCase(s: string) {
    ToUpper(s) == s
  }

  // ---- splitting and joining ----

  function SplitOn(s: string, seps: set<char>): (parts: seq<string>)
    ensures |parts| >= 1
  {
    if s == [] then [[]]
    else
      var rest := SplitOn(s[1..], seps);
      if s[0] in seps then [[]] + rest else [[s[0]] + rest[0]] + rest[1..]
  }

  function Split(s: string, sep: char): (parts: seq<string>)
    ensures |parts| >= 1
  {
    SplitOn(s, {sep})
  }

  function Join(parts: seq<string>, sep: char): string {
    if parts == [] then []
    else if |parts| == 1 then parts[0]
    else parts[0] + [sep] + Join(parts[1..], sep)
  }

  predicate Lacks(s: string, seps: set<char>) {
    forall c :: c in s ==> c !in seps
  }

  lemma {:induction false} SplitWhole(s: string, seps: set<char>)
    requires Lacks(s, seps)
    ensures SplitOn(s, seps) == [s]
  {
    if s != [] {
      assert forall c :: c in s[1..] ==> c in s;
      SplitWhole(s[1..], seps);
      assert s[0] in s;
      assert [s[0]] + s[1..] == s;
    }
  }

  lemma {:induction false} SplitFirst(part: string, sep: char, rest: string, seps: set<char>)
    requires sep in seps && Lacks(part, seps)
    ensures SplitOn(part + [sep] + rest, seps) == [part] + SplitOn(rest, seps)
  {
    var s := part + [sep] + rest;
    if part == [] {
      assert s[1..] == rest;
    } else {
      assert forall c :: c in part[1..] ==> c in part;
      SplitFirst(part[1..], sep, rest, seps);
      assert s[1..] == part[1..] + [sep] + rest;
      assert s[0] == part[0] && part[0] in part;
      assert [part[0]] + part[1..] == part;
    }
  }

  /** Splitting undoes joining, for parts that do not carry the separator. */
  lemma {:induction false} SplitJoin(parts: seq<string>, sep: char, seps: set<char>)
    requires parts != [] && sep in seps
    requires forall p :: p in parts ==> Lacks(p, seps)
    ensures SplitOn(Join(parts, sep), seps) == parts
  {
    assert parts[0] in parts;
    if |parts| == 1 {
      SplitWhole(parts[0], seps);
    } else {
      assert forall p :: p in parts[1..] ==> p in parts;
      SplitJoin(parts[1..], sep, seps);
      SplitFirst(parts[0], sep, Join(parts[1..], sep), seps);
    }
  }

  lemma {:induction false} JoinLacks(parts: seq<string>, sep: char, c: char)
    requires c != sep && forall p :: p in parts ==> c !in p
    ensures c !in Join(parts, sep)
  {
    if |parts| == 1 {
      assert parts[0] in parts;
    } else if |parts| > 1 {
      assert parts[0] in parts;
      assert forall p :: p in parts[1..] ==> p in parts;
      JoinLacks(parts[1..], sep, c);
    }
  }

  lemma JoinThree(a: string, b: string, c: string, sep: char)
    ensures Join([a, b, c], sep) == a + [sep] + b + [sep] + c
  {
    assert [a, b, c][1..] == [b, c] && [b, c][1..] == [c];
    assert Join([c], sep) == c;
    assert Join([b, c], sep) == b + [sep] + c;
    assert Join([a, b, c], sep) == a + [sep] + (b + [sep] + c);
  }

  lemma {:induction false} JoinMore(parts: seq<string>, sep: char, last: string)
    requires parts != []
    ensures Join(parts + [last], sep) == Join(parts, sep) + [sep] + last
  {
    if |parts| > 1 {
      assert (parts + [last])[1..] == parts[1..] + [last];
      JoinMore(parts[1..], sep, last);
    }
  }

  lemma {:induction false} JoinTrimmed(parts: seq<string>, sep: char)
    requires parts != [] && forall p :: p in parts ==> p != [] && Trimmed(p)
    ensures Join(parts, sep) != [] && Trimmed(Join(parts, sep))
  {
    assert parts[0] in parts;
    if |parts| > 1 {
      assert forall p :: p in parts[1..] ==> p in parts;
      JoinTrimmed(parts[1..], sep);
      var tail := Join(parts[1..], sep);
      assert Join(parts, sep)[|Join(parts, sep)| - 1] == tail[|tail| - 1];
    }
  }

  // ---- lexicographic order ----

  function StrCmp(a: string, b: string): int {
    if a == [] && b == [] then 0
    else if a == [] then -1
    else if b == [] then 1
    else if a[0] != b[0] then (if a[0] < b[0] then -1 else 1)
    else StrCmp(a[1..], b[1..])
  }

  lemma {:induction false} StrCmpSign(a: string, b: string)
    ensures StrCmp(a, b) == -StrCmp(b, a)
    ensures StrCmp(a, b) == 0 <==> a == b
  {
    if a != [] && b != [] {
      StrCmpSign(a[1..], b[1..]);
      assert a == [a[0]] + a[1..] && b == [b[0]] + b[1..];
    }
  }

  lemma {:induction false} StrCmpTransitive(a: string, b: string, c: string)
    requires StrCmp(a, b) <= 0 && StrCmp(b, c) <= 0
    ensures StrCmp(a, c) <= 0
  {
    if a != [] && b != [] && c != [] && a[0] == b[0] == c[0] {
      StrCmpTransitive(a[1..], b[1..], c[1..]);
    }
  }

  lemma TextSplits(a: string, b: string, c: string)
    ensures StrCmp(a, c) < 0 ==> StrCmp(a, b) < 0 || StrCmp(b, c) < 0
  {
    StrCmpSign(a, b);
    StrCmpSign(b, c);
    StrCmpSign(a, c);
    if StrCmp(b, a) <= 0 && StrCmp(c, b) <= 0 {
      StrCmpTransitive(c, b, a);
    }
  }

  // ---- decimal integers ----

  predicate IsDigit(c: char) {
    '0' <= c <= '9'
  }

  predicate AllDigits(s: string) {
    forall i :: 0 <= i < |s| ==> IsDigit(s[i])
  }

  function Decimal(s: string): nat
    requires AllDigits(s)
  {
    if s == [] then 0 else 10 * Decimal(s[..|s| - 1]) + (s[|s| - 1] as int - '0' as int)
  }

  const MAX_INT64 := 0x7FFF_FFFF_FFFF_FFFF

  /** A base-10 integer of 64 bits with an optional sign; `None` is the parse error. */
  function Atoi(s: string): Option<int> {
    var digits := if s != [] && (s[0] == '-' || s[0] == '+') then s[1..] else s;
    if digits == [] || !AllDigits(digits) then None
    else
      var v: int := Decimal(digits);
      var n := if s[0] == '-' then -v else v;
      if -MAX_INT64 - 1 <= n <= MAX_INT64 then Some(n) else None
  }

  // ---- the same in plain terms ----

  const WHITE := {' ', '\t', '\n', '\r', '\U{000B}', '\U{000C}'}

  lemma {:induction false} TrimLeftPlain(before: string, rest: string)
    requires (forall c :: c in before ==> c in WHITE) && (rest != [] ==> rest[0] !in WHITE)
    ensures TrimLeft(before + rest) == rest
  {
    if before == [] {
      assert before + rest == rest;
    } else {
      assert before[0] in before && (before + rest)[1..] == before[1..] + rest;
      TrimLeftPlain(before[1..], rest);
    }
  }

  lemma {:induction false} TrimRightPlain(rest: string, behind: string)
    requires (forall c :: c in behind ==> c in WHITE) && (rest != [] ==> rest[|rest| - 1] !in WHITE)
    ensures TrimRight(rest + behind) == rest
  {
    if behind == [] {
      assert rest + behind == rest;
    } else {
      var n := |behind| - 1;
      assert behind[n] in behind && (rest + behind)[..|rest + behind| - 1] == rest + behind[..n];
      TrimRightPlain(rest, behind[..n]);
    }
  }

  /** Trimming takes the white space off both ends, and that only. */
  lemma TrimPlain(before: string, core: string, behind: string)
    requires (forall c :: c in before ==> c in WHITE) && (forall c :: c in behind ==> c in WHITE)
    requires core != [] ==> core[0] !in WHITE && core[|core| - 1] !in WHITE
    ensures Trim(before + core + behind) == core
  {
    if core == [] {
      assert before + core + behind == (before + behind) + [];
      TrimLeftPlain(before + behind, []);
    } else {
      assert before + core + behind == before + (core + behind);
      TrimLeftPlain(before, core + behind);
      TrimRightPlain(core, behind);
    }
  }

  /** Letter case is that of the 26 letters; a letter and its capital are 32 apart. */
  lemma CasePlain(s: string, i: nat)
    requires i < |s|
    ensures |ToUpper(s)| == |ToLower(s)| == |s|
    ensures ToUpper(s)[i] as int == if 'a' <= s[i] <= 'z' then s[i] as int - 32 else s[i] as int
    ensures ToLower(s)[i] as int == if 'A' <= s[i] <= 'Z' then s[i] as int + 32 else s[i] as int
  {
  }

  /** Equal up to letter case: the same in capitals. */
  lemma EqualFoldPlain(s: string, t: string)
    ensures EqualFold(s, t) <==> ToUpper(s) == ToUpper(t)
  {
    if ToUpper(s) == ToUpper(t) {
      assert |s| == |ToUpper(s)| == |ToUpper(t)| == |t|;
      forall i | 0 <= i < |s|
        ensures LowerChar(s[i]) == LowerChar(t[i])
      {
        assert ToUpper(s)[i] == ToUpper(t)[i];
      }
    }
    if EqualFold(s, t) {
      forall i | 0 <= i < |s|
        ensures UpperChar(s[i]) == UpperChar(t[i])
      {
        assert LowerChar(s[i]) == LowerChar(t[i]);
      }
    }
  }

  /** The first difference decides, and a beginning comes before what it begins. */
  ghost predicate ComesBefore(a: string, b: string, n: nat) {
    n <= |a| && n < |b| && a[..n] == b[..n] && (n == |a| || a[n] < b[n])
  }

  lemma {:induction false} StrCmpPlain(a: string, b: string)
    ensures StrCmp(a, b) < 0 <==> exists n: nat :: ComesBefore(a, b, n)
    ensures StrCmp(a, b) in {-1, 0, 1} && (StrCmp(a, b) == 0 <==> a == b)
  {
    StrCmpSign(a, b);
    if a != [] && b != [] && a[0] == b[0] {
      StrCmpPlain(a[1..], b[1..]);
      if n: nat :| ComesBefore(a[1..], b[1..], n) {
        assert a[..n + 1] == [a[0]] + a[1..][..n] && b[..n + 1] == [b[0]] + b[1..][..n];
        assert ComesBefore(a, b, n + 1);
      }
      if n: nat :| ComesBefore(a, b, n) {
        assert n > 0 && a[..n][1..] == a[1..][..n - 1] && b[..n][1..] == b[1..][..n - 1];
        assert ComesBefore(a[1..], b[1..], n - 1);
      }
    } else if b != [] {
      assert ComesBefore(a, b, 0) <==> a == [] || a[0] < b[0];
      if n: nat :| ComesBefore(a, b, n) {
        assert n > 0 ==> a[..n][0] == b[..n][0];
      }
    }
  }

  /** One more digit to the right. */
  lemma DecimalOn(s: string, d: char)
    requires AllDigits(s) && '0' <= d <= '9'
    ensures AllDigits(s + [d]) && Decimal(s + [d]) == 10 * Decimal(s) + (d as int - '0' as int) && Decimal([]) == 0
  {
    assert (s + [d])[..|s|] == s;
  }

  /** Digits, with one sign or none, are a number if it fits 64 bits. */
  lemma AtoiPlain(digits: string)
    requires digits != [] && forall c :: c in digits ==> '0' <= c <= '9'
    ensures AllDigits(digits)
    ensures var n: int := Decimal(digits);
      && Atoi(digits) == (if n < 0x8000_0000_0000_0000 then Some(n) else None)
      && Atoi(['+'] + digits) == (if n < 0x8000_0000_0000_0000 then Some(n) else None)
      && Atoi(['-'] + digits) == (if n <= 0x8000_0000_0000_0000 then Some(-n) else None)
  {
    forall i | 0 <= i < |digits|
      ensures IsDigit(digits[i])
    {
      assert digits[i] in digits;
    }
    assert (['+'] + digits)[1..] == digits && (['-'] + digits)[1..] == digits;
    assert IsDigit(digits[0]);
  }

  /** Nothing else is a number. */
  lemma AtoiRefuses(s: string)
    requires forall sign, digits :: s == sign + digits && digits != [] && sign in {"", "+", "-"} ==>
      exists c :: c in digits && !('0' <= c <= '9')
    ensures Atoi(s) == None
  {
    if s != [] && (s[0] == '-' || s[0] == '+') {
      assert s == [s[0]] + s[1..] && [s[0]] in {"", "+", "-"};
    } else {
      assert s == "" + s;
    }
  }

  lemma {:induction false} LeftTrimmed(s: string)
    ensures TrimLeft(s) == [] || !IsSpace(TrimLeft(s)[0])
  {
    if s != [] && IsSpace(s[0]) {
      LeftTrimmed(s[1..]);
    }
  }

  lemma {:induction false} RightTrimmed(s: string)
    ensures var t := TrimRight(s);
      t == [] || (t[0] == s[0] && |t| <= |s| && !IsSpace(t[|t| - 1]))
  {
    if s != [] && IsSpace(s[|s| - 1]) {
      RightTrimmed(s[..|s| - 1]);
    }
  }

  lemma TrimTwice(s: string)
    ensures Trim(Trim(s)) == Trim(s)
  {
    LeftTrimmed(s);
    RightTrimmed(TrimLeft(s));
    var t := Trim(s);
    assert TrimLeft(t) == t;
  }
}
