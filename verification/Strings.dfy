/** Searching in strings, as `std::string::find` does it, and numbers in decimal. */
module Strings {
  import opened Options

  predicate OccursAt(s: string, pat: string, k: int) {
    0 <= k && k + |pat| <= |s| && s[k..k + |pat|] == pat
  }

  /** The first occurrence of `pat` at or after `start`. */
  function Find(s: string, pat: string, start: nat): (r: Option<nat>)
    ensures r.Some? ==> start <= r.value && OccursAt(s, pat, r.value)
    decreases |s| + 1 - start
  {
    if start + |pat| > |s| then None
    else if OccursAt(s, pat, start) then Some(start)
    else Find(s, pat, start + 1)
  }

  lemma {:induction false} NoneBefore(s: string, pat: string, start: nat, k: nat)
    requires start <= k < (if Find(s, pat, start).Some? then Find(s, pat, start).value else |s| + 1)
    ensures !OccursAt(s, pat, k)
    decreases |s| + 1 - start
  {
    if start < k && start + |pat| <= |s| {
      NoneBefore(s, pat, start + 1, k);
    }
  }

  lemma NoneEarlier(s: string, pat: string, start: nat)
    ensures var r := Find(s, pat, start);
            forall k :: start <= k < (if r.Some? then r.value else |s| + 1) ==> !OccursAt(s, pat, k)
  {
    var r := Find(s, pat, start);
    forall k | start <= k < (if r.Some? then r.value else |s| + 1) ensures !OccursAt(s, pat, k) {
      NoneBefore(s, pat, start, k);
    }
  }

  lemma FindIs(s: string, pat: string, start: nat, k: nat)
    requires start <= k && OccursAt(s, pat, k) && forall j :: start <= j < k ==> !OccursAt(s, pat, j)
    ensures Find(s, pat, start) == Some(k)
  {
    var r := Find(s, pat, start);
    if r.None? || k < r.value {
      NoneBefore(s, pat, start, k);
    }
  }

  lemma SliceOfSlice(s: string, a: nat, b: nat, lo: nat, hi: nat)
    requires lo <= hi && a + hi <= b <= |s|
    ensures s[a..b][lo..hi] == s[a + lo..a + hi]
  {
    var x, y := s[a..b][lo..hi], s[a + lo..a + hi];
    forall i | 0 <= i < hi - lo ensures x[i] == y[i] {
      assert x[i] == s[a..b][lo + i] == s[a + lo + i];
    }
    assert x == y;
  }

  lemma OccursShifted(s: string, pat: string, start: nat, k: nat)
    requires start <= |s|
    ensures OccursAt(s[start..], pat, k) <==> OccursAt(s, pat, start + k)
  {
    if start + k + |pat| <= |s| {
      SliceOfSlice(s, start, |s|, k, k + |pat|);
    }
  }

  /** Searching the rest of a string is searching from there on. */
  lemma FindInRest(s: string, pat: string, start: nat)
    requires start <= |s|
    ensures var r := Find(s, pat, start);
            Find(s[start..], pat, 0) == if r.None? then None else Some(r.value - start)
  {
    var r, t := Find(s, pat, start), s[start..];
    if r.Some? {
      var k := r.value - start;
      OccursShifted(s, pat, start, k);
      forall j | 0 <= j < k ensures !OccursAt(t, pat, j) {
        OccursShifted(s, pat, start, j);
        NoneBefore(s, pat, start, start + j);
      }
      FindIs(t, pat, 0, k);
    } else if Find(t, pat, 0).Some? {
      OccursShifted(s, pat, start, Find(t, pat, 0).value);
      NoneBefore(s, pat, start, start + Find(t, pat, 0).value);
    }
  }

  lemma OccursChar(s: string, pat: string, k: nat, i: nat)
    requires OccursAt(s, pat, k) && i < |pat|
    ensures s[k + i] == pat[i]
  {
    assert s[k..k + |pat|][i] == pat[i];
  }

  /** A one-character pattern occurs exactly where that character stands. */
  lemma CharOccurs(s: string, c: char, k: int)
    ensures OccursAt(s, [c], k) <==> 0 <= k < |s| && s[k] == c
  {
    if 0 <= k < |s| {
      assert s[k..k + 1] == [s[k]];
    }
  }

  lemma FindChar(s: string, c: char, start: nat)
    ensures var r := Find(s, [c], start);
            && (r.Some? ==> start <= r.value < |s| && s[r.value] == c && forall k :: start <= k < r.value ==> s[k] != c)
            && (r.None? ==> forall k :: start <= k < |s| ==> s[k] != c)
  {
    forall k ensures OccursAt(s, [c], k) <==> 0 <= k < |s| && s[k] == c {
      CharOccurs(s, c, k);
    }
    var r := Find(s, [c], start);
    forall k | start <= k < (if r.Some? then r.value else |s|) ensures s[k] != c {
      NoneBefore(s, [c], start, k);
    }
  }

  lemma FindCharIs(s: string, c: char, start: nat, k: nat)
    requires start <= k < |s| && s[k] == c && forall j :: start <= j < k ==> s[j] != c
    ensures Find(s, [c], start) == Some(k)
  {
    FindChar(s, c, start);
  }

  /** The decimal digits of a number, as `std::to_string` and `%u` write them. */
  function Decimal(n: nat): (s: string)
    ensures s != "" && forall c :: c in s ==> '0' <= c <= '9'
    decreases n
  {
    var digit := ('0' as int + n % 10) as char;
    if n < 10 then [digit] else Decimal(n / 10) + [digit]
  }

  lemma {:induction false} DecimalInjective(m: nat, n: nat)
    ensures Decimal(m) == Decimal(n) ==> m == n
    decreases m
  {
    if Decimal(m) == Decimal(n) {
      var s := Decimal(m);
      assert s[|s| - 1] as int - '0' as int == m % 10 == n % 10;
      if m >= 10 && n >= 10 {
        assert Decimal(m / 10) == s[..|s| - 1] == Decimal(n / 10);
        DecimalInjective(m / 10, n / 10);
      }
    }
  }

  /** What a string of digits says, read from the left. */
  function Value(digits: string): int {
    if digits == "" then 0
    else Value(digits[..|digits| - 1]) * 10 + (digits[|digits| - 1] as int - '0' as int)
  }

  lemma {:induction false} DecimalRead(n: nat)
    ensures Value(Decimal(n)) == n
    decreases n
  {
    var s := Decimal(n);
    if n >= 10 {
      assert s[..|s| - 1] == Decimal(n / 10);
      DecimalRead(n / 10);
    } else {
      assert s[..|s| - 1] == "";
    }
  }

  predicate SameLetter(a: char, b: char) {
    a == b || ('A' <= a <= 'Z' && b as int == a as int + 32) || ('A' <= b <= 'Z' && a as int == b as int + 32)
  }

  /** The same text apart from the case of ASCII letters. */
  predicate SameName(a: string, b: string) {
    |a| == |b| && forall i :: 0 <= i < |a| ==> SameLetter(a[i], b[i])
  }
}
