/** Revision names: how component.go prints them, and the two places that parse them back. */
module Names {

  const INT64_MAX: int := 0x7FFF_FFFF_FFFF_FFFF
  const INT64_MIN: int := -0x8000_0000_0000_0000

  // ---------- Go library routines used on names ----------

  function Digit(d: nat): char
    requires d < 10
  {
    '0' + d as char
  }

  predicate IsDigit(c: char) {
    '0' <= c <= '9'
  }

  predicate AllDigits(s: string) {
    s != "" && forall i :: 0 <= i < |s| ==> IsDigit(s[i])
  }

  function Digits(n: nat): string {
    if n < 10 then [Digit(n)] else Digits(n / 10) + [Digit(n % 10)]
  }

  /** fmt's %d, and strconv.Itoa. */
  function Itoa(n: int): string {
    if n < 0 then "-" + Digits(-n) else Digits(n)
  }

  function DigitsValue(s: string): nat
    requires forall i :: 0 <= i < |s| ==> IsDigit(s[i])
  {
    if s == "" then 0 else
      assert IsDigit(s[|s| - 1]);
      10 * DigitsValue(s[..|s| - 1]) + (s[|s| - 1] as int - '0' as int)
  }

  /** strconv.ParseInt(s, 10, 0) on a 64-bit platform with its error dropped: 0 on a syntax error,
      the nearest bound when out of range. */
  function ParseInt(s: string): int {
    var negative := s != "" && s[0] == '-';
    var digits := if s != "" && (s[0] == '-' || s[0] == '+') then s[1..] else s;
    if !AllDigits(digits) then 0
    else
      var n: int := if negative then -(DigitsValue(digits) as int) else DigitsValue(digits);
      if n < INT64_MIN then INT64_MIN else if n > INT64_MAX then INT64_MAX else n
  }

  /** strings.Split(s, "-") */
  function Split(s: string): (parts: seq<string>)
    ensures parts != []
  {
    if s == "" then [""]
    else
      var rest := Split(s[1..]);
      if s[0] == '-' then [""] + rest else [[s[0]] + rest[0]] + rest[1..]
  }

  /** strings.Join(parts, "-") */
  function Join(parts: seq<string>): string {
    if parts == [] then ""
    else if |parts| == 1 then parts[0]
    else parts[0] + "-" + Join(parts[1..])
  }

  /** strings.LastIndex(s, "v") */
  function LastV(s: string): (i: int)
    ensures -1 <= i < |s|
  {
    if s == "" then -1 else if s[|s| - 1] == 'v' then |s| - 1 else LastV(s[..|s| - 1])
  }

  /** strings.HasPrefix */
  predicate HasPrefix(s: string, prefix: string) {
    prefix <= s
  }

  // ---------- the functions of the repository ----------

  function ConstructRevisionName(componentName: string, revision: int): string {
    Join([componentName, "v" + Itoa(revision)])
  }

  function ExtractComponentName(revisionName: string): string {
    var splits := Split(revisionName);
    Join(splits[..|splits| - 1])
  }

  function ExtractRevision(name: string): int {
    ParseInt(name[LastV(name) + 1..])
  }

  /** IsRevisionWorkload: a workload the garbage collector leaves alone. */
  predicate IsRevisionWorkload(componentName: string, workloadName: string) {
    HasPrefix(workloadName, componentName + "-")
  }

  // ---------- printing and parsing digits ----------

  lemma {:induction false} DigitsRoundTrip(n: nat)
    ensures AllDigits(Digits(n)) && DigitsValue(Digits(n)) == n
    ensures 'v' !in Digits(n) && '-' !in Digits(n)
  {
    if n >= 10 {
      DigitsRoundTrip(n / 10);
      assert Digits(n)[..|Digits(n)| - 1] == Digits(n / 10);
    } else {
      assert Digits(n)[..0] == "";
    }
  }

  function Nearest64(n: int): int {
    if n < -0x8000_0000_0000_0000 then -0x8000_0000_0000_0000
    else if n > 0x7FFF_FFFF_FFFF_FFFF then 0x7FFF_FFFF_FFFF_FFFF
    else n
  }

  /** Any number is parsed back as the nearest one that fits in 64 bits. */
  lemma ParseSaturates(n: int)
    ensures ParseInt(Itoa(n)) == Nearest64(n)
  {
    DigitsRoundTrip(if n < 0 then -n else n);
    if n < 0 {
      assert Itoa(n)[1..] == Digits(-n);
    } else {
      assert IsDigit(Itoa(n)[0]);
    }
  }

  lemma ItoaHasNoV(n: int)
    ensures 'v' !in Itoa(n)
    ensures '-' in Itoa(n) <==> n < 0
  {
    DigitsRoundTrip(if n < 0 then -n else n);
    if n < 0 {
      assert Itoa(n)[0] == '-';
      assert forall i :: 0 < i < |Itoa(n)| ==> Itoa(n)[i] == Digits(-n)[i - 1];
    }
  }

  lemma {:induction false} LastVOfSuffix(c: string, t: string)
    requires 'v' !in t
    ensures LastV(c + "v" + t) == |c|
    decreases |t|
  {
    var s := c + "v" + t;
    if t != "" {
      LastVOfSuffix(c, t[..|t| - 1]);
      assert s[..|s| - 1] == c + "v" + t[..|t| - 1];
      assert s[|s| - 1] == t[|t| - 1];
    }
  }

  lemma NameShape(c: string, n: int)
    ensures ConstructRevisionName(c, n) == c + "-" + ("v" + Itoa(n)) == (c + "-") + "v" + Itoa(n)
  {
    var t := "v" + Itoa(n);
    assert [c, t][1..] == [t];
    assert Join([c, t]) == c + "-" + t;
    assert c + "-" + t == (c + "-") + "v" + Itoa(n);
  }

  // ---------- splitting and joining ----------

  lemma {:induction false} SplitAppend(c: string, t: string)
    requires '-' !in t
    ensures Split(c + "-" + t) == Split(c) + [t]
  {
    var s := c + "-" + t;
    if c == "" {
      assert s[1..] == t;
      SplitNoDash(t);
    } else {
      assert s[1..] == c[1..] + "-" + t;
      SplitAppend(c[1..], t);
    }
  }

  lemma {:induction false} SplitNoDash(t: string)
    requires '-' !in t
    ensures Split(t) == [t]
  {
    if t != "" {
      SplitNoDash(t[1..]);
      assert t == [t[0]] + t[1..];
    }
  }

  lemma {:induction false} JoinSplit(c: string)
    ensures Join(Split(c)) == c
  {
    if c != "" {
      JoinSplit(c[1..]);
      var rest := Split(c[1..]);
      assert c == [c[0]] + c[1..];
      if c[0] == '-' {
        assert ([""] + rest)[1..] == rest;
      } else {
        assert ([[c[0]] + rest[0]] + rest[1..])[1..] == rest[1..];
      }
    }
  }

  // ---------- round trips ----------

  /** ExtractComponentName inverts ConstructRevisionName, whatever the component name holds, and it
      does so exactly for the revision numbers that print without a sign. */
  lemma ComponentNameRoundTrip(c: string, n: int)
    ensures ExtractComponentName(ConstructRevisionName(c, n)) == c <==> n >= 0
  {
    NameShape(c, n);
    ItoaHasNoV(n);
    JoinSplit(c);
    if n >= 0 {
      SplitAppend(c, "v" + Itoa(n));
      assert (Split(c) + ["v" + Itoa(n)])[..|Split(c)|] == Split(c);
    } else {
      // The sign is one more separator, so the "v" stays with the component name.
      DigitsRoundTrip(-n);
      assert c + "-" + ("v" + Itoa(n)) == (c + "-" + "v") + "-" + Digits(-n);
      SplitAppend(c + "-" + "v", Digits(-n));
      JoinSplit(c + "-" + "v");
      assert (Split(c + "-" + "v") + [Digits(-n)])[..|Split(c + "-" + "v")|] == Split(c + "-" + "v");
      assert |c + "-" + "v"| == |c| + 2;
    }
  }

  /** The health scope's parser recovers the number of every revision, or the nearest one that fits in 64 bits. */
  lemma RevisionNumberSaturates(c: string, n: int)
    ensures ExtractRevision(ConstructRevisionName(c, n)) == Nearest64(n)
  {
    var name := ConstructRevisionName(c, n);
    NameShape(c, n);
    ItoaHasNoV(n);
    LastVOfSuffix(c + "-", Itoa(n));
    assert name[LastV(name) + 1..] == Itoa(n);
    ParseSaturates(n);
  }

  /** So every 64-bit number comes back as it was, negative ones included. */
  lemma RevisionNumberRoundTrip(c: string, n: int)
    requires INT64_MIN <= n <= INT64_MAX
    ensures ExtractRevision(ConstructRevisionName(c, n)) == n
  {
    RevisionNumberSaturates(c, n);
  }

  lemma ItoaIsInjective(n: int, m: int)
    requires Itoa(n) == Itoa(m)
    ensures n == m
  {
    DigitsRoundTrip(if n < 0 then -n else n);
    DigitsRoundTrip(if m < 0 then -m else m);
    if n < 0 { assert Itoa(n)[1..] == Digits(-n) && Itoa(n)[0] == '-'; }
    if m < 0 { assert Itoa(m)[1..] == Digits(-m) && Itoa(m)[0] == '-'; }
    ItoaHasNoV(n);
    ItoaHasNoV(m);
  }

  /** No two pairs of a component and a revision share a name, whatever the numbers. */
  lemma RevisionNamesAreInjective(c: string, n: int, d: string, m: int)
    requires ConstructRevisionName(c, n) == ConstructRevisionName(d, m)
    ensures c == d && n == m
  {
    var name := ConstructRevisionName(c, n);
    NameShape(c, n);
    NameShape(d, m);
    ItoaHasNoV(n);
    ItoaHasNoV(m);
    LastVOfSuffix(c + "-", Itoa(n));
    LastVOfSuffix(d + "-", Itoa(m));
    assert Itoa(n) == name[LastV(name) + 1..] == Itoa(m);
    ItoaIsInjective(n, m);
    assert c == name[..|c|] && d == name[..|d|];
  }

  /** Two revisions of one component never share a name. */
  lemma RevisionNamesOfOneComponent(c: string, n: nat, m: nat)
    ensures ConstructRevisionName(c, n) == ConstructRevisionName(c, m) ==> n == m
  {
    if ConstructRevisionName(c, n) == ConstructRevisionName(c, m) { RevisionNamesAreInjective(c, n, c, m); }
  }

  /** What the garbage collector spares is exactly the names that begin with the component's and a dash, whatever
      follows; a revision's name is one of them, and so is any other. */
  lemma SparedExactlyWhen(componentName: string, workloadName: string)
    ensures IsRevisionWorkload(componentName, workloadName) <==> exists rest :: workloadName == componentName + "-" + rest
  {
    if IsRevisionWorkload(componentName, workloadName) {
      assert workloadName == componentName + "-" + workloadName[|componentName| + 1..];
    }
  }

  /** Every workload named after a revision of its component is spared by the collector. */
  lemma RevisionNamedWorkloadIsSpared(c: string, n: int)
    ensures IsRevisionWorkload(c, ConstructRevisionName(c, n))
  {
    NameShape(c, n);
    assert ConstructRevisionName(c, n)[..|c| + 1] == c + "-";
  }

  /** The comment at healthscope.go:385 says an unqualified name yields 0. It does not always: this name
      is the printed form of no revision and still yields 7. */
  lemma UnqualifiedNameMayParse(c: string, n: int)
    ensures ExtractRevision("dev7") == 7 && "dev7" != ConstructRevisionName(c, n)
  {
    NameShape(c, n);
    var s := "dev7";
    assert s[..|s| - 1] == "dev";
    assert LastV(s) == LastV("dev") == 2;
    assert s[3..] == "7" && "7"[..0] == "";
    assert DigitsValue("7") == 7;
    assert '-' !in s;
    assert ConstructRevisionName(c, n)[|c|] == '-';
  }

  /** What does yield 0: a name whose part after the last "v" is not a signed run of digits, or is all
      zeros. */
  lemma ExtractRevisionIsZero(name: string)
    ensures ExtractRevision(name) == 0 <==>
            (var t := name[LastV(name) + 1..];
             var d := if t != "" && t[0] in "+-" then t[1..] else t;
             !AllDigits(d) || forall i :: 0 <= i < |d| ==> d[i] == '0')
  {
    var t := name[LastV(name) + 1..];
    var d := if t != "" && t[0] in "+-" then t[1..] else t;
    if AllDigits(d) {
      ZeroDigits(d);
    }
  }

  lemma {:induction false} ZeroDigits(d: string)
    requires forall i :: 0 <= i < |d| ==> IsDigit(d[i])
    ensures DigitsValue(d) == 0 <==> forall i :: 0 <= i < |d| ==> d[i] == '0'
  {
    if d != "" {
      var front := d[..|d| - 1];
      ZeroDigits(front);
      assert forall i :: 0 <= i < |front| ==> front[i] == d[i];
    }
  }
}
