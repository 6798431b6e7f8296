/** format_number of the scalar engine (lib/collatz.cpp): the decimal form of a result
    field with a comma between groups of three digits, and "NONE" for the INT64_MAX
    sentinel of a run without overflow. */
module Format {
  import opened Words

  predicate IsDigit(c: char)
  {
    '0' <= c <= '9'
  }

  function DigitChar(d: nat): (c: char)
    requires d < 10
    ensures IsDigit(c) && c as int - '0' as int == d
  {
    "0123456789"[d]
  }

  /** std::to_string of an unsigned value: its decimal digits, most significant first. */
  function Decimal(n: nat): (s: string)
    ensures |s| >= 1 && forall i :: 0 <= i < |s| ==> IsDigit(s[i])
  {
    if n < 10 then [DigitChar(n)] else Decimal(n / 10) + [DigitChar(n % 10)]
  }

  /** The number a string of decimal digits denotes. */
  function Value(s: string): nat
    requires forall i :: 0 <= i < |s| ==> IsDigit(s[i])
  {
    if |s| == 0 then 0
    else
      assert IsDigit(s[|s| - 1]);
      10 * Value(s[..|s| - 1]) + (s[|s| - 1] as int - '0' as int)
  }

  /** to_string is exact and canonical: its digits denote the number, with no leading
      zero except for 0 itself. */
  lemma {:induction false} DecimalValue(n: nat)
    ensures Value(Decimal(n)) == n
    ensures Decimal(n)[0] == '0' <==> n == 0
  {
    if n >= 10 {
      DecimalValue(n / 10);
      var s := Decimal(n);
      assert s[..|s| - 1] == Decimal(n / 10);
    }
  }

  /** The string with its commas removed. */
  function StripCommas(s: string): string
  {
    if |s| == 0 then []
    else StripCommas(s[..|s| - 1]) + (if s[|s| - 1] == ',' then [] else [s[|s| - 1]])
  }

  lemma {:induction false} StripAppend(a: string, b: string)
    ensures StripCommas(a + b) == StripCommas(a) + StripCommas(b)
  {
    if |b| == 0 {
      assert a + b == a;
    } else {
      assert (a + b)[..|a + b| - 1] == a + b[..|b| - 1];
      StripAppend(a, b[..|b| - 1]);
    }
  }

  lemma {:induction false} StripDigits(s: string)
    requires forall i :: 0 <= i < |s| ==> IsDigit(s[i])
    ensures StripCommas(s) == s
  {
    if |s| > 0 {
      StripDigits(s[..|s| - 1]);
    }
  }

  /** Commas separate groups of exactly three digits counted from the right: a comma
      stands exactly where a multiple of four characters remains, never first, so the
      leading group has one to three digits. */
  predicate Grouped(r: string)
  {
    && |r| % 4 != 0
    && forall i :: 0 <= i < |r| ==> (r[i] == ',' <==> (|r| - i) % 4 == 0)
  }

  /** The groups already separated, rightmost part of the string: ",ddd" repeated. */
  ghost predicate Tail(t: string)
  {
    && |t| % 4 == 0
    && forall i :: 0 <= i < |t| ==> (t[i] == ',' <==> i % 4 == 0)
  }

  /** format_number: "NONE" for INT64_MAX; otherwise to_string, then a comma inserted at
      length - 3, length - 6, ... while the position is positive. The commas removed give
      the decimal string back, and they sit between groups of three from the right. */
  method FormatNumber(num: u64) returns (r: string)
    ensures num == INT64_MAX ==> r == "NONE"
    ensures num != INT64_MAX ==> StripCommas(r) == Decimal(num) && Grouped(r)
  {
    if num == INT64_MAX {
      return "NONE";
    }
    var d := Decimal(num);
    r := d;
    var pos: int := |r| - 3;
    ghost var t: string := [];
    while pos > 0
      invariant 1 <= pos + 3 <= |d|
      invariant r == d[..pos + 3] + t
      invariant Tail(t) && StripCommas(t) == d[pos + 3..]
    {
      InsertComma(d, pos, t);
      t := "," + d[pos..pos + 3] + t;
      r := r[..pos] + "," + r[pos..];
      pos := pos - 3;
    }
    GroupedJoin(d, pos + 3, t);
  }

  /** One insertion: the three digits before the separated part join it behind a comma. */
  lemma {:induction false} InsertComma(d: string, pos: nat, t: string)
    requires 0 < pos && pos + 3 <= |d| && forall i :: 0 <= i < |d| ==> IsDigit(d[i])
    requires Tail(t) && StripCommas(t) == d[pos + 3..]
    ensures var r := d[..pos + 3] + t;
      && r[..pos] + "," + r[pos..] == d[..pos] + ("," + d[pos..pos + 3] + t)
      && Tail("," + d[pos..pos + 3] + t)
      && StripCommas("," + d[pos..pos + 3] + t) == d[pos..]
  {
    var r := d[..pos + 3] + t;
    assert r[..pos] == d[..pos];
    assert r[pos..] == d[pos..pos + 3] + t;
    var g := d[pos..pos + 3];
    TailGrow(g, t);
    StripGroup(g, t);
    assert d[pos..] == g + d[pos + 3..];
  }

  /** A comma and three digits in front of the separated part keep it separated. */
  lemma {:induction false} TailGrow(g: string, t: string)
    requires |g| == 3 && forall i :: 0 <= i < 3 ==> IsDigit(g[i])
    requires Tail(t)
    ensures Tail("," + g + t)
  {
    var t' := "," + g + t;
    forall i | 0 <= i < |t'| ensures t'[i] == ',' <==> i % 4 == 0 {
      if i >= 4 {
        assert t'[i] == t[i - 4];
      } else if i >= 1 {
        assert t'[i] == g[i - 1];
      }
    }
  }

  /** Removing the commas of ",ggg" + t leaves ggg and t's digits. */
  lemma {:induction false} StripGroup(g: string, t: string)
    requires forall i :: 0 <= i < |g| ==> IsDigit(g[i])
    ensures StripCommas("," + g + t) == g + StripCommas(t)
  {
    var c: string := ",";
    assert StripCommas(c) == [] by {
      assert c[..0] == [];
    }
    StripDigits(g);
    StripAppend(c, g);
    assert StripCommas(c + g) == g;
    StripAppend(c + g, t);
  }

  /** The leading one to three digits followed by the separated groups are well grouped
      and lose their commas to the decimal string. */
  lemma {:induction false} GroupedJoin(d: string, q: nat, t: string)
    requires 1 <= q <= 3 && q <= |d| && forall i :: 0 <= i < |d| ==> IsDigit(d[i])
    requires Tail(t) && StripCommas(t) == d[q..]
    ensures Grouped(d[..q] + t) && StripCommas(d[..q] + t) == d
  {
    GroupedLead(d[..q], t);
    var lead := d[..q];
    StripDigits(lead);
    StripAppend(lead, t);
    assert StripCommas(lead + t) == lead + d[q..];
    assert lead + d[q..] == d;
  }

  lemma {:induction false} GroupedLead(lead: string, t: string)
    requires 1 <= |lead| <= 3 && forall j :: 0 <= j < |lead| ==> IsDigit(lead[j])
    requires Tail(t)
    ensures Grouped(lead + t)
  {
    var r := lead + t;
    forall i | 0 <= i < |r| ensures r[i] == ',' <==> (|r| - i) % 4 == 0 {
      GroupedAt(lead, t, i);
    }
    LeadMod(|t|, |lead|);
  }

  /** One position of the joined string: a leading digit, or a character of the tail. */
  lemma {:induction false} GroupedAt(lead: string, t: string, i: nat)
    requires 1 <= |lead| <= 3 && forall j :: 0 <= j < |lead| ==> IsDigit(lead[j])
    requires Tail(t) && i < |lead| + |t|
    ensures (lead + t)[i] == ',' <==> (|lead| + |t| - i) % 4 == 0
  {
    if i >= |lead| {
      assert (lead + t)[i] == t[i - |lead|];
      TailMod(|t|, i - |lead|);
    } else {
      assert (lead + t)[i] == lead[i];
      LeadMod(|t|, |lead| - i);
    }
  }

  lemma {:induction false} LeadMod(n: nat, k: nat)
    requires n % 4 == 0 && 1 <= k <= 3
    ensures (k + n) % 4 != 0
  {
  }

  lemma {:induction false} TailMod(n: nat, j: nat)
    requires n % 4 == 0 && j < n
    ensures (n - j) % 4 == 0 <==> j % 4 == 0
  {
  }
}
