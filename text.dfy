/** Character classes and the regular-expression helpers the normalizers use:
    `re.findall(r'<class>+', s)` is `Runs(s, class)`, `'.'.join(parts)` is
    `Join(parts, '.')`, `int(digits)` is `Val(digits)`, `str(n)` is `DecimalString(n)`. */
module Text {

  /** The three character classes the ledger matches runs of:
      `\d`, `\w` and `[а-яА-Я0-9]`. */
  datatype CharClass = Digit | Word | MonthYear

  predicate IsDigit(c: char) { '0' <= c <= '9' }

  /** The contiguous block U+0410..U+044F, which is `[а-яА-Я]`. */
  predicate IsCyrillic(c: char) { 'А' <= c <= 'я' }

  /** `\w`, restricted to the scripts the ledger is used with. */
  predicate IsWordChar(c: char) {
    IsDigit(c) || 'a' <= c <= 'z' || 'A' <= c <= 'Z' || c == '_' || IsCyrillic(c) || c == 'ё' || c == 'Ё'
  }

  predicate InClass(c: char, cls: CharClass) {
    match cls
    case Digit => IsDigit(c)
    case Word => IsWordChar(c)
    case MonthYear => IsCyrillic(c) || IsDigit(c)
  }

  predicate AllIn(s: string, cls: CharClass) {
    forall i :: 0 <= i < |s| ==> InClass(s[i], cls)
  }

  predicate NoneIn(s: string, cls: CharClass) {
    forall i :: 0 <= i < |s| ==> !InClass(s[i], cls)
  }

  /** `str.lower()` on one character of the classes above. */
  function Lower(c: char): char {
    if 'A' <= c <= 'Z' || 'А' <= c <= 'Я' then (c as int + 32) as char
    else if c == 'Ё' then 'ё'
    else c
  }

  /** `str.lower()`: the same length, every character lower-case, each character
      the lower-case form of the one it replaces, and no character leaves its class. */
  function LowerStr(s: string): (r: string)
    ensures |r| == |s|
    ensures forall i :: 0 <= i < |s| ==> r[i] == Lower(s[i])
    ensures forall i :: 0 <= i < |r| ==> Lower(r[i]) == r[i]
    ensures forall cls: CharClass :: AllIn(s, cls) ==> AllIn(r, cls)
  {
    seq(|s|, i requires 0 <= i < |s| => Lower(s[i]))
  }

  /** Lower-casing is idempotent. */
  lemma LowerStrIdempotent(s: string)
    ensures LowerStr(LowerStr(s)) == LowerStr(s)
  {
  }

  /** Length of the longest prefix of `s` inside `cls`. */
  function LeadingRun(s: string, cls: CharClass): (n: nat)
    ensures n <= |s| && AllIn(s[..n], cls)
    ensures n < |s| ==> !InClass(s[n], cls)
  {
    if s == [] || !InClass(s[0], cls) then 0
    else
      1 + LeadingRun(s[1..], cls)
  }

  /** The maximal prefix in `cls` is the only prefix in `cls` that cannot be extended. */
  lemma LeadingRunUnique(s: string, cls: CharClass, k: nat)
    requires k <= |s| && AllIn(s[..k], cls)
    requires k < |s| ==> !InClass(s[k], cls)
    ensures LeadingRun(s, cls) == k
  {
  }

  /** `re.findall(r'<cls>+', s)`: the maximal runs of `cls` characters, left to right. */
  function Runs(s: string, cls: CharClass): (r: seq<string>)
    ensures forall k :: 0 <= k < |r| ==> r[k] != [] && AllIn(r[k], cls)
    decreases |s|
  {
    if s == [] then []
    else if !InClass(s[0], cls) then Runs(s[1..], cls)
    else
      var n := LeadingRun(s, cls);
      [s[..n]] + Runs(s[n..], cls)
  }

  /** A string wholly inside `cls` is a single run. */
  lemma RunsOfRun(a: string, cls: CharClass)
    requires a != [] && AllIn(a, cls)
    ensures Runs(a, cls) == [a]
  {
    assert a[..|a|] == a;
    LeadingRunUnique(a, cls, |a|);
    assert a[|a|..] == [];
  }

  /** A run followed by a separator outside `cls` is the first run of the string. */
  lemma RunsAfterSeparator(a: string, c: char, b: string, cls: CharClass)
    requires a != [] && AllIn(a, cls) && !InClass(c, cls)
    ensures Runs(a + [c] + b, cls) == [a] + Runs(b, cls)
  {
    var s := a + [c] + b;
    assert s[..|a|] == a;
    LeadingRunUnique(s, cls, |a|);
    assert s[|a|..] == [c] + b;
    assert ([c] + b)[1..] == b;
  }

  /** `s` and `t` have the same characters of `cls` at the same places; elsewhere
      each may hold any other character. */
  predicate SameSkeleton(s: string, t: string, cls: CharClass) {
    |s| == |t| &&
    forall i :: 0 <= i < |s| ==> (InClass(s[i], cls) <==> InClass(t[i], cls)) && (InClass(s[i], cls) ==> s[i] == t[i])
  }

  /** The runs do not depend on which separators stand between them. */
  lemma {:induction false} RunsIgnoreSeparators(s: string, t: string, cls: CharClass)
    requires SameSkeleton(s, t, cls)
    ensures Runs(s, cls) == Runs(t, cls)
    decreases |s|
  {
    if s == [] {
    } else if !InClass(s[0], cls) {
      assert SameSkeleton(s[1..], t[1..], cls);
      RunsIgnoreSeparators(s[1..], t[1..], cls);
    } else {
      var n := LeadingRun(s, cls);
      assert s[..n] == t[..n];
      LeadingRunUnique(t, cls, n);
      assert SameSkeleton(s[n..], t[n..], cls);
      RunsIgnoreSeparators(s[n..], t[n..], cls);
    }
  }

  /** `w` is the first maximal run of `cls` in `s`, starting at `i`: nothing of `cls`
      before it, and it cannot be extended to the right. */
  predicate RunAt(s: string, i: int, w: string, cls: CharClass) {
    0 <= i && i + |w| <= |s| && NoneIn(s[..i], cls) && s[i..i + |w|] == w &&
    (i + |w| < |s| ==> !InClass(s[i + |w|], cls))
  }

  lemma RunAtShift(s: string, i: int, w: string, cls: CharClass)
    requires s != [] && !InClass(s[0], cls) && RunAt(s[1..], i, w, cls)
    ensures RunAt(s, i + 1, w, cls)
  {
    forall k | 0 <= k < i + 1 ensures !InClass(s[k], cls) {
      if k > 0 { assert s[k] == s[1..][..i][k - 1]; }
    }
    assert s[i + 1..i + 1 + |w|] == s[1..][i..i + |w|];
  }

  /** `re.findall(...)[0]` exists exactly when some character of `cls` occurs, and
      then it is the first maximal run. */
  lemma {:induction false} FirstRun(s: string, cls: CharClass)
    ensures Runs(s, cls) != [] <==> exists i :: 0 <= i < |s| && InClass(s[i], cls)
    ensures Runs(s, cls) != [] ==> exists i :: RunAt(s, i, Runs(s, cls)[0], cls)
    decreases |s|
  {
    if s == [] {
    } else if !InClass(s[0], cls) {
      FirstRun(s[1..], cls);
      if exists i :: 0 <= i < |s| && InClass(s[i], cls) {
        var i :| 0 <= i < |s| && InClass(s[i], cls);
        assert s[1..][i - 1] == s[i];
      }
      if Runs(s, cls) != [] {
        var i :| RunAt(s[1..], i, Runs(s, cls)[0], cls);
        RunAtShift(s, i, Runs(s, cls)[0], cls);
      }
    } else {
      var n := LeadingRun(s, cls);
      assert s[0..n] == s[..n];
      assert RunAt(s, 0, Runs(s, cls)[0], cls);
    }
  }

  /** `sep.join(parts)`: the first part, then `sep` before each further part, so the
      first separator follows the first part and two parts take more than their own
      length. */
  function Join(parts: seq<string>, sep: char): (r: string)
    ensures parts == [] ==> r == []
    ensures parts != [] ==> |parts[0]| <= |r| && r[..|parts[0]|] == parts[0]
    ensures |parts| >= 2 ==> |r| > |parts[0]| + |parts[1]| && r[|parts[0]|] == sep
    decreases |parts|
  {
    if parts == [] then []
    else if |parts| == 1 then parts[0]
    else
      var rest := Join(parts[1..], sep);
      assert parts[1..][0] == parts[1];
      parts[0] + [sep] + rest
  }

  /** Splitting a join back into runs: parts that are runs of `cls`, joined by a
      separator outside `cls`, are exactly the runs of the joined string. */
  lemma {:induction false} RunsOfJoin(parts: seq<string>, sep: char, cls: CharClass)
    requires forall k :: 0 <= k < |parts| ==> parts[k] != [] && AllIn(parts[k], cls)
    requires !InClass(sep, cls)
    ensures Runs(Join(parts, sep), cls) == parts
    decreases |parts|
  {
    if |parts| == 1 {
      RunsOfRun(parts[0], cls);
    } else if |parts| > 1 {
      var tail := parts[1..];
      assert forall k :: 0 <= k < |tail| ==> tail[k] == parts[k + 1];
      RunsOfJoin(tail, sep, cls);
      RunsAfterSeparator(parts[0], sep, Join(tail, sep), cls);
      assert parts == [parts[0]] + tail;
    }
  }

  /** Position of the first `c` in `s`, or `|s|` when there is none. */
  function IndexOf(s: string, c: char): (n: nat)
    ensures n <= |s|
    ensures forall i :: 0 <= i < n ==> s[i] != c
    ensures n < |s| ==> s[n] == c
  {
    if s == [] then 0
    else if s[0] == c then 0
    else 1 + IndexOf(s[1..], c)
  }

  function DigitValue(c: char): int {
    c as int - '0' as int
  }

  function DigitChar(d: int): (c: char)
    requires 0 <= d < 10
    ensures IsDigit(c) && DigitValue(c) == d
  {
    ('0' as int + d) as char
  }

  function Pow10(n: nat): (p: nat)
    ensures p >= 1
  {
    if n == 0 then 1 else 10 * Pow10(n - 1)
  }

  /** `int(s)` for a string of decimal digits. */
  function Val(s: string): (v: int)
    ensures AllIn(s, Digit) ==> 0 <= v < Pow10(|s|)
  {
    if s == [] then 0
    else
      var init := s[..|s| - 1];
      assert AllIn(s, Digit) ==> AllIn(init, Digit) by {
        assert forall i :: 0 <= i < |init| ==> init[i] == s[i];
      }
      10 * Val(init) + DigitValue(s[|s| - 1])
  }

  lemma ValAppend(s: string, c: char)
    ensures Val(s + [c]) == 10 * Val(s) + DigitValue(c)
  {
    assert (s + [c])[..|s|] == s;
  }

  /** `str(n)`: the shortest decimal spelling of `n`, which `int` reads back as `n`. */
  function DecimalString(n: nat): (r: string)
    ensures r != [] && AllIn(r, Digit) && Val(r) == n
    ensures n < 10 ==> |r| == 1
    ensures 10 <= n < 100 ==> |r| == 2
  {
    if n < 10 then
      var r := [DigitChar(n)];
      assert r == [] + [DigitChar(n)];
      ValAppend([], DigitChar(n));
      r
    else
      var r := DecimalString(n / 10) + [DigitChar(n % 10)];
      ValAppend(DecimalString(n / 10), DigitChar(n % 10));
      r
  }

  /** `n` written with exactly `width` digits, zero-padded on the left
      (`strftime`'s `%d`, `%m`, `%Y`). */
  function Pad(n: nat, width: nat): (r: string)
    ensures |r| == width && AllIn(r, Digit)
    ensures n < Pow10(width) ==> Val(r) == n
  {
    if width == 0 then []
    else
      var r := Pad(n / 10, width - 1) + [DigitChar(n % 10)];
      ValAppend(Pad(n / 10, width - 1), DigitChar(n % 10));
      r
  }
}
