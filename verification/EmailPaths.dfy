/** buildEmailPath and the path parsing of LoadEmails, on the path relative to emails/. */
module EmailPaths {
  import opened Types

  // ---- decimal numbers ----

  predicate IsDigit(c: char) {
    '0' <= c <= '9'
  }

  function Digit(d: int): (c: char)
    requires 0 <= d < 10
    ensures IsDigit(c) && DigitValue(c) == d
  {
    (48 + d) as char
  }

  function DigitValue(c: char): (d: int)
    requires IsDigit(c)
    ensures 0 <= d < 10
  {
    c as int - 48
  }

  lemma DigitOfValue(c: char)
    requires IsDigit(c)
    ensures Digit(DigitValue(c)) == c
  {
  }

  /** fmt's %d of a non-negative number. */
  function Dec(n: nat): (s: string)
    ensures |s| > 0
  {
    if n < 10 then [Digit(n)] else Dec(n / 10) + [Digit(n % 10)]
  }

  function Zeros(k: int): string {
    if k <= 0 then "" else Zeros(k - 1) + "0"
  }

  /** fmt's %0wd. */
  function Padded(n: nat, w: nat): string {
    Zeros(w - |Dec(n)|) + Dec(n)
  }

  predicate AllDigits(s: string) {
    forall i :: 0 <= i < |s| ==> IsDigit(s[i])
  }

  function Value(s: string): nat
    requires AllDigits(s)
  {
    if s == "" then 0 else Value(s[..|s| - 1]) * 10 + DigitValue(s[|s| - 1])
  }

  /** strconv.ParseUint(s, 10, 32): digits only, at least one, leading zeros allowed. */
  function ParseUint32(s: string): Option<uint32> {
    if s == "" || !AllDigits(s) || Value(s) >= UINT32_LIMIT then None else Some(Value(s))
  }

  function Pow10(k: nat): (p: nat)
    ensures p > 0
  {
    if k == 0 then 1 else 10 * Pow10(k - 1)
  }

  /** The one digit string of width `w` and value `n`. */
  function Fixed(n: nat, w: nat): string {
    if w == 0 then "" else Fixed(n / 10, w - 1) + [Digit(n % 10)]
  }

  lemma {:induction false} FixedHasValue(n: nat, w: nat)
    requires n < Pow10(w)
    ensures |Fixed(n, w)| == w && AllDigits(Fixed(n, w)) && Value(Fixed(n, w)) == n
  {
    if w > 0 {
      FixedHasValue(n / 10, w - 1);
      var init := Fixed(n / 10, w - 1);
      assert Fixed(n, w)[..w - 1] == init;
    }
  }

  lemma {:induction false} FixedIsUnique(s: string)
    requires AllDigits(s)
    ensures Value(s) < Pow10(|s|) && Fixed(Value(s), |s|) == s
  {
    if s != "" {
      var init, c := s[..|s| - 1], s[|s| - 1];
      FixedIsUnique(init);
      DigitOfValue(c);
      assert Value(s) / 10 == Value(init) && Value(s) % 10 == DigitValue(c);
      assert s == init + [c];
    }
  }

  /** %d is the fixed form of its own width, and its first digit is not 0 unless the number is. */
  lemma {:induction false} DecIsFixed(n: nat)
    ensures n < Pow10(|Dec(n)|) && Dec(n) == Fixed(n, |Dec(n)|)
    ensures n > 0 ==> Pow10(|Dec(n)| - 1) <= n
  {
    if n < 10 {
      assert Fixed(n, 1) == Fixed(n / 10, 0) + [Digit(n % 10)];
      assert Pow10(1) == 10 && Pow10(0) == 1;
    } else {
      DecIsFixed(n / 10);
    }
  }

  lemma {:induction false} ZerosOfFixed(n: nat, w: nat, k: nat)
    requires n < Pow10(w)
    ensures Zeros(k) + Fixed(n, w) == Fixed(n, w + k)
    decreases w
  {
    if w == 0 {
      ZeroIsZeros(k);
      assert Zeros(k) + "" == Zeros(k);
    } else {
      ZerosOfFixed(n / 10, w - 1, k);
      assert Zeros(k) + Fixed(n, w) == (Zeros(k) + Fixed(n / 10, w - 1)) + [Digit(n % 10)];
    }
  }

  lemma {:induction false} ZeroIsZeros(k: nat)
    ensures Fixed(0, k) == Zeros(k)
  {
    if k > 0 {
      ZeroIsZeros(k - 1);
    }
  }

  lemma {:induction false} Pow10Grows(a: nat, b: nat)
    requires a <= b
    ensures Pow10(a) <= Pow10(b)
    decreases b - a
  {
    if a < b {
      Pow10Grows(a + 1, b);
    }
  }

  lemma PaddedIsFixed(n: nat, w: nat)
    requires n < Pow10(w) && w > 0
    ensures Padded(n, w) == Fixed(n, w)
  {
    DecIsFixed(n);
    if |Dec(n)| > w {
      Pow10Grows(w, |Dec(n)| - 1);
    }
    ZerosOfFixed(n, |Dec(n)|, w - |Dec(n)|);
  }

  lemma ParseDec(n: uint32)
    ensures ParseUint32(Dec(n)) == Some(n)
  {
    DecIsFixed(n);
    FixedHasValue(n, |Dec(n)|);
  }

  /** Parsing a number and printing it again gives the same text exactly when it had no leading zero. */
  lemma PrintParsedIff(s: string)
    requires ParseUint32(s).Some?
    ensures Dec(ParseUint32(s).value) == s <==> (|s| == 1 || s[0] != '0')
  {
    var n := Value(s);
    FixedIsUnique(s);
    DecIsFixed(n);
    if |s| == 1 || s[0] != '0' {
      if |s| > 1 {
        LeadingDigit(s);
      } else {
        assert s[..0] == "" && Value(s) == DigitValue(s[0]);
      }
      if |Dec(n)| < |s| {
        Pow10Grows(|Dec(n)|, |s| - 1);
      } else if |s| < |Dec(n)| {
        Pow10Grows(|s|, |Dec(n)| - 1);
      }
      assert |Dec(n)| == |s|;
    } else if Dec(n) == s {
      DecLeads(n);
    }
  }

  lemma {:induction false} LeadingDigit(s: string)
    requires AllDigits(s) && |s| > 0 && s[0] != '0'
    ensures Value(s) >= Pow10(|s| - 1)
  {
    if |s| == 1 {
      assert s[..0] == "" && Value(s) == DigitValue(s[0]);
    } else {
      LeadingDigit(s[..|s| - 1]);
    }
  }

  lemma {:induction false} DecLeads(n: nat)
    ensures n > 0 ==> Dec(n)[0] != '0'
    ensures |Dec(n)| > 1 ==> n > 0
  {
    if n >= 10 {
      DecLeads(n / 10);
    }
  }

  // ---- paths ----

  const SEP := '/'
  const EML := ".eml"

  function BuildEmailPath(p: EmailPath): string {
    Dec(p.uidValidity) + [SEP] + Padded(p.year, 4) + Padded(p.month, 2) + [SEP] + Padded(p.uid, 10) + EML
  }

  /** strings.Split on the separator. */
  function Split(s: string): (parts: seq<string>)
    ensures |parts| > 0
  {
    if s == "" then [""]
    else
      var init := Split(s[..|s| - 1]);
      if s[|s| - 1] == SEP then init + [""]
      else init[|init| - 1 := init[|init| - 1] + [s[|s| - 1]]]
  }

  predicate HasSuffix(s: string, suffix: string) {
    |s| >= |suffix| && s[|s| - |suffix|..] == suffix
  }

  /** time.Parse("200601", s): six digits and a month that exists. */
  function ParseMonth(s: string): Option<(Year, Month)> {
    if |s| == 6 && AllDigits(s) && AllDigits(s[..4]) && AllDigits(s[4..]) && 1 <= Value(s[4..]) <= 12 && Value(s[..4]) <= 9999
    then Some((Value(s[..4]), Value(s[4..])))
    else None
  }

  datatype ParsedPath = InvalidPath | BadMonth(uid: uint32, uidValidity: uint32) | ValidPath(path: EmailPath)

  /** The path parsing of LoadEmails; `BadMonth` is an error only when the index has no date. */
  function ParseEmailPath(rel: string): ParsedPath {
    var parts := Split(rel);
    if |parts| != 3 || !HasSuffix(parts[2], EML) then InvalidPath
    else
      var uv, uid := ParseUint32(parts[0]), ParseUint32(parts[2][..|parts[2]| - 4]);
      if uv.None? || uid.None? then InvalidPath
      else
        var month := ParseMonth(parts[1]);
        if month.None? then BadMonth(uid.value, uv.value)
        else ValidPath(EmailPath(uv.value, month.value.0, month.value.1, uid.value))
  }

  /** The month start that stands in for a missing index date. */
  function FallbackDate(p: EmailPath): Time {
    Time(p.year, p.month, 0)
  }

  predicate NoSep(s: string) {
    forall i :: 0 <= i < |s| ==> s[i] != SEP
  }

  lemma {:induction false} SplitTail(s: string, t: string)
    requires NoSep(t)
    ensures Split(s + t) == Split(s)[|Split(s)| - 1 := Split(s)[|Split(s)| - 1] + t]
  {
    if t == "" {
      assert s + t == s && Split(s)[|Split(s)| - 1] + t == Split(s)[|Split(s)| - 1];
    } else {
      var n := |t| - 1;
      SplitTail(s, t[..n]);
      assert (s + t)[..|s + t| - 1] == s + t[..n];
      assert t == t[..n] + [t[n]];
      var last := Split(s)[|Split(s)| - 1];
      assert last + t == (last + t[..n]) + [t[n]];
    }
  }

  lemma SplitSep(s: string, t: string)
    requires NoSep(t)
    ensures Split(s + [SEP] + t) == Split(s) + [t]
  {
    assert (s + [SEP])[..|s|] == s;
    SplitTail(s + [SEP], t);
    assert "" + t == t;
  }

  lemma SplitThree(a: string, b: string, c: string)
    requires NoSep(a) && NoSep(b) && NoSep(c)
    ensures Split(a + [SEP] + b + [SEP] + c) == [a, b, c]
  {
    SplitTail("", a);
    assert "" + a == a;
    SplitSep(a, b);
    SplitSep(a + [SEP] + b, c);
  }

  /** The pieces joined again are the text. */
  function Join(parts: seq<string>): string {
    if parts == [] then "" else if |parts| == 1 then parts[0] else Join(parts[..|parts| - 1]) + [SEP] + parts[|parts| - 1]
  }

  lemma {:induction false} JoinSplit(s: string)
    ensures Join(Split(s)) == s
  {
    if s != "" {
      var init, c := s[..|s| - 1], s[|s| - 1];
      JoinSplit(init);
      assert s == init + [c];
      if c == SEP {
        JoinSnoc(Split(init), "");
      } else {
        JoinLonger(Split(init), c);
      }
    }
  }

  lemma JoinSnoc(parts: seq<string>, t: string)
    requires parts != []
    ensures Join(parts + [t]) == Join(parts) + [SEP] + t
  {
    assert (parts + [t])[..|parts|] == parts;
  }

  lemma JoinLonger(parts: seq<string>, c: char)
    requires parts != []
    ensures Join(parts[|parts| - 1 := parts[|parts| - 1] + [c]]) == Join(parts) + [c]
  {
    var n := |parts| - 1;
    assert parts[n := parts[n] + [c]] == parts[..n] + [parts[n] + [c]];
    if n > 0 {
      JoinSnoc(parts[..n], parts[n] + [c]);
    }
  }

  lemma MonthText(year: Year, month: Month)
    ensures var s := Padded(year, 4) + Padded(month, 2);
      |Padded(year, 4)| == 4 && |s| == 6 && NoSep(s) && ParseMonth(s) == Some((year, month))
  {
    PowersOfTen();
    PaddedIsFixed(year, 4);
    FixedHasValue(year, 4);
    PaddedIsFixed(month, 2);
    FixedHasValue(month, 2);
    var s := Padded(year, 4) + Padded(month, 2);
    assert s[..4] == Padded(year, 4) && s[4..] == Padded(month, 2);
    assert AllDigits(s);
  }

  lemma MonthTextBack(s: string)
    requires ParseMonth(s).Some?
    ensures Padded(ParseMonth(s).value.0, 4) + Padded(ParseMonth(s).value.1, 2) == s
  {
    PowersOfTen();
    FixedIsUnique(s[..4]);
    FixedIsUnique(s[4..]);
    PaddedIsFixed(Value(s[..4]), 4);
    PaddedIsFixed(Value(s[4..]), 2);
    assert s == s[..4] + s[4..];
  }

  lemma UidText(uid: uint32)
    ensures |Padded(uid, 10)| == 10 && NoSep(Padded(uid, 10)) && ParseUint32(Padded(uid, 10)) == Some(uid)
  {
    PowersOfTen();
    PaddedIsFixed(uid, 10);
    FixedHasValue(uid, 10);
  }

  lemma UidTextBackIff(s: string)
    requires ParseUint32(s).Some?
    ensures Padded(ParseUint32(s).value, 10) == s <==> |s| == 10
  {
    UidText(ParseUint32(s).value);
    PowersOfTen();
    PaddedIsFixed(Value(s), 10);
    FixedIsUnique(s);
  }

  /** Parsing the path made by buildEmailPath gives back uid, uidvalidity and month, and rebuilding from the
      month-start fallback gives the same path. */
  lemma PathRoundTrip(e: IndexEntry)
    ensures ParseEmailPath(BuildEmailPath(PathOf(e))) == ValidPath(PathOf(e))
    ensures BuildEmailPath(PathOf(e.(date := FallbackDate(PathOf(e))))) == BuildEmailPath(PathOf(e))
  {
    var p := PathOf(e);
    var a, ym, u := Dec(p.uidValidity), Padded(p.year, 4) + Padded(p.month, 2), Padded(p.uid, 10);
    ParseDec(p.uidValidity);
    MonthText(p.year, p.month);
    UidText(p.uid);
    BuiltSplits(p);
    assert (u + EML)[..10] == u && (u + EML)[10..] == EML;
  }

  lemma PowersOfTen()
    ensures Pow10(2) == 100 && Pow10(4) == 10000 && Pow10(10) == 10000000000
  {
    assert Pow10(2) == 10 * Pow10(1) && Pow10(1) == 10 * Pow10(0);
    assert Pow10(3) == 1000;
    assert Pow10(4) == 10000;
    assert Pow10(5) == 100000;
    assert Pow10(6) == 1000000;
    assert Pow10(7) == 10000000;
    assert Pow10(8) == 100000000;
    assert Pow10(9) == 1000000000;
  }

  /** Different emails, or the same one under another month, have different files. */
  lemma PathsAreInjective(e: IndexEntry, e': IndexEntry)
    requires BuildEmailPath(PathOf(e)) == BuildEmailPath(PathOf(e'))
    ensures PathOf(e) == PathOf(e')
  {
    PathRoundTrip(e);
    PathRoundTrip(e');
  }

  /** The name buildEmailPath would give: no leading zero in the epoch, ten digits of uid. */
  predicate Canonical(rel: string) {
    var parts := Split(rel);
    && |parts| == 3
    && (|parts[0]| == 1 || (parts[0] != "" && parts[0][0] != '0'))
    && |parts[2]| == 14
  }

  /** Such a name: LoadEmails accepts it, and gc would look for 1/202605/0000000001.eml. */
  lemma NotCanonical()
    ensures ParseEmailPath("1/202605/1.eml") == ValidPath(EmailPath(1, 2026, 5, 1)) && !Canonical("1/202605/1.eml")
  {
    ParseFirst("202605");
    MonthOf202605();
    assert "1" + [SEP] + "202605" + [SEP] + "1.eml" == "1/202605/1.eml";
  }

  /** Email 1 of epoch 1, in any directory. */
  lemma ParseFirst(dir: string)
    requires NoSep(dir)
    ensures var rel := "1" + [SEP] + dir + [SEP] + "1.eml";
      && Split(rel) == ["1", dir, "1.eml"]
      && ParseEmailPath(rel) == if ParseMonth(dir).None? then BadMonth(1, 1)
                                else ValidPath(EmailPath(1, ParseMonth(dir).value.0, ParseMonth(dir).value.1, 1))
  {
    SplitThree("1", dir, "1.eml");
    assert "1.eml"[..1] == "1" && "1.eml"[1..] == EML;
    ValueOfDigit("1");
  }

  /** A name in full. */
  lemma BuiltName()
    ensures BuildEmailPath(EmailPath(1, 2026, 5, 1)) == "1/202605/0000000001.eml"
  {
    TextOf2026();
    TextOf5();
    TextOf1();
    assert "1" + [SEP] + "2026" + "05" + [SEP] + "0000000001" + EML == "1/202605/0000000001.eml";
  }

  lemma TextOf2026()
    ensures Padded(2026, 4) == "2026"
  {
    assert Dec(2) == "2";
    assert Dec(20) == "20";
    assert Dec(202) == "202";
    assert Dec(2026) == "2026";
    assert Zeros(0) == "";
  }

  lemma TextOf5()
    ensures Padded(5, 2) == "05"
  {
    assert Dec(5) == "5";
    assert Zeros(1) == "0";
  }

  lemma TextOf1()
    ensures Dec(1) == "1" && Padded(1, 10) == "0000000001"
  {
    assert Dec(1) == "1";
    assert Zeros(3) == "000";
    assert Zeros(6) == "000000";
    assert Zeros(9) == "000000000";
  }

  lemma ValueOfDigit(s: string)
    requires |s| == 1 && AllDigits(s)
    ensures Value(s) == DigitValue(s[0])
  {
    assert s[..0] == "";
  }

  lemma MonthOf202605()
    ensures ParseMonth("202605") == Some((2026, 5))
  {
    var s := "202605";
    assert s[..4] == "2026" && s[4..] == "05";
    ValueOfDigit("2");
    ValueOfDigit("0");
    ValueSnoc("2", '0', "20");
    ValueSnoc("20", '2', "202");
    ValueSnoc("202", '6', "2026");
    ValueSnoc("0", '5', "05");
  }

  lemma ValueSnoc(s: string, c: char, longer: string)
    requires AllDigits(longer) && longer == s + [c]
    ensures AllDigits(s) && IsDigit(c) && Value(longer) == Value(s) * 10 + DigitValue(c)
  {
    assert longer[..|s|] == s && longer[|s|] == c;
    forall i | 0 <= i < |s| ensures IsDigit(s[i]) {
      assert longer[i] == s[i];
    }
  }

  /** A file that LoadEmails accepts is the one gc later deletes exactly when its name is canonical. */
  lemma RebuiltIffCanonical(rel: string)
    requires ParseEmailPath(rel).ValidPath?
    ensures BuildEmailPath(ParseEmailPath(rel).path) == rel <==> Canonical(rel)
  {
    var parts, p := Split(rel), ParseEmailPath(rel).path;
    PartsBack(parts, rel);
    BuiltSplits(p);
    if Canonical(rel) {
      JoinSplit(rel);
      JoinSplit(BuildEmailPath(p));
      assert parts == [parts[0], parts[1], parts[2]];
      assert Split(BuildEmailPath(p)) == parts;
    } else {
      UidText(p.uid);
    }
  }

  /** Printing the three parsed numbers gives the parts back, except for zeros in front. */
  lemma PartsBack(parts: seq<string>, rel: string)
    requires parts == Split(rel) && ParseEmailPath(rel).ValidPath?
    ensures var p := ParseEmailPath(rel).path;
      && (Dec(p.uidValidity) == parts[0] <==> |parts[0]| == 1 || parts[0][0] != '0')
      && Padded(p.year, 4) + Padded(p.month, 2) == parts[1]
      && (Padded(p.uid, 10) + EML == parts[2] <==> |parts[2]| == 14)
  {
    var u := parts[2][..|parts[2]| - 4];
    PrintParsedIff(parts[0]);
    MonthTextBack(parts[1]);
    UidTextBackIff(u);
    assert parts[2] == u + EML;
    var p := ParseEmailPath(rel).path;
    assert (Padded(p.uid, 10) + EML)[..|Padded(p.uid, 10)|] == Padded(p.uid, 10);
  }

  lemma BuiltSplits(p: EmailPath)
    ensures Split(BuildEmailPath(p)) == [Dec(p.uidValidity), Padded(p.year, 4) + Padded(p.month, 2), Padded(p.uid, 10) + EML]
  {
    var ym := Padded(p.year, 4) + Padded(p.month, 2);
    ParseDec(p.uidValidity);
    MonthText(p.year, p.month);
    UidText(p.uid);
    SplitThree(Dec(p.uidValidity), ym, Padded(p.uid, 10) + EML);
    assert BuildEmailPath(p) == Dec(p.uidValidity) + [SEP] + ym + [SEP] + (Padded(p.uid, 10) + EML);
  }
}
