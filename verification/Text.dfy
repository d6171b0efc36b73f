/** The parts of Go's strings package that the signature parser uses. */
module Text {
  import BigEndian

  /** unicode.IsSpace. */
  predicate IsSpace(c: char)
  {
    c == ' ' || '\t' <= c <= '\r' || c == '\U{0085}' || c == '\U{00A0}' || c == '\U{1680}' || '\U{2000}' <= c <= '\U{200a}'
    || c == '\U{2028}' || c == '\U{2029}' || c == '\U{202f}' || c == '\U{205f}' || c == '\U{3000}'
  }

  predicate Spaces(s: string)
  {
    forall i :: 0 <= i < |s| ==> IsSpace(s[i])
  }

  function TrimLeft(s: string): (r: string)
    ensures |r| <= |s|
  {
    if s != "" && IsSpace(s[0]) then TrimLeft(s[1..]) else s
  }

  function TrimEnd(s: string): (r: string)
    ensures |r| <= |s|
  {
    if s != "" && IsSpace(s[|s| - 1]) then TrimEnd(s[..|s| - 1]) else s
  }

  /** strings.TrimSpace. */
  function Trim(s: string): (r: string)
    ensures |r| <= |s|
  {
    TrimEnd(TrimLeft(s))
  }

  /** No space at either end. */
  predicate Trimmed(s: string)
  {
    s == "" || (!IsSpace(s[0]) && !IsSpace(s[|s| - 1]))
  }

  lemma {:induction false} LeftIs(left: string, s: string)
    requires Spaces(left) && (s == "" || !IsSpace(s[0]))
    ensures TrimLeft(left + s) == s
    decreases |left|
  {
    if left == "" {
      assert left + s == s;
    } else {
      assert (left + s)[1..] == left[1..] + s;
      LeftIs(left[1..], s);
    }
  }

  lemma {:induction false} EndIs(s: string, right: string)
    requires Spaces(right) && (s == "" || !IsSpace(s[|s| - 1]))
    ensures TrimEnd(s + right) == s
    decreases |right|
  {
    if right == "" {
      assert s + right == s;
    } else {
      var n := |right| - 1;
      assert (s + right)[..|s| + n] == s + right[..n];
      EndIs(s, right[..n]);
    }
  }

  /** What is left after removing space at both ends has none there, and is the only such. */
  lemma TrimIs(left: string, s: string, right: string)
    requires Spaces(left) && Spaces(right) && Trimmed(s)
    ensures Trim(left + s + right) == s
  {
    if s == "" {
      assert left + s + right == (left + right) + s;
      LeftIs(left + right, s);
    } else {
      assert left + s + right == left + (s + right);
      LeftIs(left, s + right);
      EndIs(s, right);
    }
  }

  lemma SpacesCons(c: char, s: string)
    requires IsSpace(c) && Spaces(s)
    ensures Spaces([c] + s)
  {
  }

  lemma {:induction false} LeftTrims(s: string) returns (left: string)
    ensures Spaces(left) && s == left + TrimLeft(s) && (TrimLeft(s) == "" || !IsSpace(TrimLeft(s)[0]))
    decreases |s|
  {
    left := "";
    if s != "" && IsSpace(s[0]) {
      var l := LeftTrims(s[1..]);
      left := [s[0]] + l;
      SpacesCons(s[0], l);
      assert s == [s[0]] + s[1..];
      assert [s[0]] + (l + TrimLeft(s[1..])) == left + TrimLeft(s[1..]);
    }
  }

  lemma {:induction false} EndTrims(s: string) returns (right: string)
    ensures Spaces(right) && s == TrimEnd(s) + right && (TrimEnd(s) == "" || !IsSpace(TrimEnd(s)[|TrimEnd(s)| - 1]))
    decreases |s|
  {
    right := "";
    if s != "" && IsSpace(s[|s| - 1]) {
      var front, c := s[..|s| - 1], s[|s| - 1];
      var r := EndTrims(front);
      right := r + [c];
      SpacesSnoc(r, c);
      assert s == front + [c];
      Regrouped(TrimEnd(front), r, [c]);
    }
  }

  lemma {:induction false} SpacesSnoc(s: string, c: char)
    requires Spaces(s) && IsSpace(c)
    ensures Spaces(s + [c])
  {
  }

  /** Trimming takes off space only, and all of it. */
  lemma {:induction false} TrimTrims(s: string) returns (left: string, right: string)
    ensures Spaces(left) && Spaces(right) && Trimmed(Trim(s)) && s == left + Trim(s) + right
  {
    left := LeftTrims(s);
    var t := TrimLeft(s);
    right := EndTrims(t);
    var r := TrimEnd(t);
    FrontTrimmed(t, r, right);
    Regrouped(left, r, right);
  }

  lemma {:induction false} FrontTrimmed(t: string, r: string, right: string)
    requires t == r + right && (t == "" || !IsSpace(t[0])) && (r == "" || !IsSpace(r[|r| - 1]))
    ensures Trimmed(r)
  {
    assert r != "" ==> r[0] == t[0];
  }

  lemma {:induction false} Regrouped(a: string, b: string, c: string)
    ensures a + (b + c) == a + b + c
  {
  }

  /** If the text does not start with space, only its end is trimmed. */
  lemma TrimsEnd(s: string) returns (right: string)
    requires s != "" && !IsSpace(s[0])
    ensures Spaces(right) && s == Trim(s) + right
  {
    var left, r := TrimTrims(s);
    assert left == "";
    right := r;
    assert left + Trim(s) == Trim(s);
  }

  /** strings.Index of one character. */
  function Index(s: string, c: char): (i: int)
    ensures -1 <= i < |s|
    ensures i >= 0 ==> s[i] == c
    ensures forall k :: 0 <= k < (if i >= 0 then i else |s|) ==> s[k] != c
  {
    if s == "" then -1
    else if s[0] == c then 0
    else
      var k := Index(s[1..], c);
      if k < 0 then -1 else k + 1
  }

  /** strings.LastIndex of one character. */
  function LastIndex(s: string, c: char): (i: int)
    ensures -1 <= i < |s|
    ensures i >= 0 ==> s[i] == c
    ensures forall k :: i < k < |s| ==> s[k] != c
  {
    if s == "" then -1
    else if s[|s| - 1] == c then |s| - 1
    else LastIndex(s[..|s| - 1], c)
  }

  lemma {:induction false} IndexIs(u: string, c: char, v: string)
    requires c !in u
    ensures Index(u + [c] + v, c) == |u|
    decreases |u|
  {
    if u != "" {
      assert (u + [c] + v)[1..] == u[1..] + [c] + v;
      IndexIs(u[1..], c, v);
    }
  }

  lemma {:induction false} LastIndexIs(u: string, c: char, v: string)
    requires c !in v
    ensures LastIndex(u + [c] + v, c) == |u|
    decreases |v|
  {
    var s := u + [c] + v;
    if v != "" {
      var n := |v| - 1;
      assert s[|s| - 1] == v[n] && s[..|s| - 1] == u + [c] + v[..n];
      LastIndexIs(u, c, v[..n]);
    }
  }

  /** strings.Count of one character. */
  function Count(s: string, c: char): (n: nat)
    ensures n > 0 <==> c in s
  {
    if s == "" then 0 else (if s[0] == c then 1 else 0) + Count(s[1..], c)
  }

  lemma {:induction false} CountConcat(s: string, t: string, c: char)
    ensures Count(s + t, c) == Count(s, c) + Count(t, c)
    decreases |s|
  {
    if s == "" {
      assert s + t == t;
    } else {
      assert (s + t)[1..] == s[1..] + t;
      CountConcat(s[1..], t, c);
    }
  }

  /** strings.Split at one character. */
  function Split(s: string, c: char): (parts: seq<string>)
    ensures |parts| > 0
    decreases |s|
  {
    var i := Index(s, c);
    if i < 0 then [s] else [s[..i]] + Split(s[i + 1..], c)
  }

  /** The text up to the first separator is the first part. */
  lemma SplitStep(u: string, c: char, v: string)
    requires c !in u
    ensures Split(u + [c] + v, c) == [u] + Split(v, c)
  {
    IndexIs(u, c, v);
    var s := u + [c] + v;
    assert s[..|u|] == u && s[|u| + 1..] == v;
  }

  lemma {:induction false} PartsHaveNone(s: string, c: char, i: nat)
    requires i < |Split(s, c)|
    ensures c !in Split(s, c)[i]
    decreases |s|
  {
    var k := Index(s, c);
    if k >= 0 && i > 0 {
      PartsHaveNone(s[k + 1..], c, i - 1);
    }
  }

  /** strings.TrimRight of one character. */
  function TrimRight(s: string, c: char): (r: string)
    ensures |r| <= |s|
  {
    if s != "" && s[|s| - 1] == c then TrimRight(s[..|s| - 1], c) else s
  }

  /** strings.Join. */
  function Join(parts: seq<string>, sep: string): (s: string)
  {
    if parts == [] then "" else if |parts| == 1 then parts[0] else parts[0] + sep + Join(parts[1..], sep)
  }

  lemma {:induction false} JoinConcat(p: seq<string>, q: seq<string>, sep: string)
    requires p != [] && q != []
    ensures Join(p + q, sep) == Join(p, sep) + sep + Join(q, sep)
    decreases |p|
  {
    assert (p + q)[1..] == p[1..] + q;
    if |p| > 1 {
      JoinConcat(p[1..], q, sep);
      assert Join(p + q, sep) == p[0] + sep + (Join(p[1..], sep) + sep + Join(q, sep));
    } else {
      assert p[1..] + q == q;
    }
  }

  /** Joining non-empty parts without separators and splitting again gives the parts back. */
  lemma {:induction false} SplitJoin(parts: seq<string>, c: char)
    requires parts != [] && forall i :: 0 <= i < |parts| ==> c !in parts[i]
    ensures Split(Join(parts, [c]), c) == parts
    decreases |parts|
  {
    if |parts| > 1 {
      SplitJoin(parts[1..], c);
      SplitStep(parts[0], c, Join(parts[1..], [c]));
      assert parts == [parts[0]] + parts[1..];
    }
  }

  /** Decimal digits, as fmt prints them. */
  function Decimal(n: nat): (s: string)
    ensures s != "" && forall i :: 0 <= i < |s| ==> '0' <= s[i] <= '9'
  {
    (if n < 10 then "" else Decimal(n / 10)) + ["0123456789"[n % 10]]
  }

  function Pow10(k: nat): (p: nat)
    ensures p > 0
  {
    if k == 0 then 1 else 10 * Pow10(k - 1)
  }

  lemma DigitChar(d: nat)
    requires d < 10
    ensures "0123456789"[d] as int - '0' as int == d
  {
  }

  /** The character at place k from the right is the digit of n for 10^k. */
  lemma {:induction false} DecimalDigit(n: nat, k: nat)
    requires k < |Decimal(n)|
    ensures var s := Decimal(n); s[|s| - 1 - k] as int - '0' as int == n / Pow10(k) % 10
    decreases n
  {
    DigitChar(n % 10);
    if k > 0 {
      var front := Decimal(n / 10);
      DecimalDigit(n / 10, k - 1);
      BigEndian.DivDiv(n, 10, Pow10(k - 1));
      assert Decimal(n)[|front| - k] == front[|front| - k];
    }
  }

  lemma {:induction false} NoLeadingZero(n: nat)
    requires n > 0
    ensures Decimal(n)[0] != '0'
  {
    DigitChar(n % 10);
    if n >= 10 {
      NoLeadingZero(n / 10);
    }
  }
}
