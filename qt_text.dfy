/** String helpers standing in for the few QString / QStringList operations the
    core relies on. A QString is modelled as a sequence of characters. */
module QtText {

  /** `s` begins with `prefix`. */
  predicate StartsWith(s: string, prefix: string)
  {
    |prefix| <= |s| && s[..|prefix|] == prefix
  }

  /** `s` ends with `suffix`. */
  predicate EndsWith(s: string, suffix: string)
  {
    |suffix| <= |s| && s[|s| - |suffix|..] == suffix
  }

  /** QString::contains(QString): `sub` occurs somewhere in `s`. As in Qt, the
      empty string is contained in every string. */
  predicate Contains(s: string, sub: string)
    decreases |s|
  {
    StartsWith(s, sub) || (|s| > 0 && Contains(s[1..], sub))
  }

  /** Containment of a one-character needle is plain membership. */
  lemma {:induction false} ContainsChar(s: string, c: char)
    ensures Contains(s, [c]) <==> c in s
    decreases |s|
  {
    if |s| > 0 {
      ContainsChar(s[1..], c);
      assert s == [s[0]] + s[1..];
    }
  }

  /** A needle that occurs at position `i` is contained. */
  lemma {:induction false} ContainsAt(s: string, sub: string, i: nat)
    requires i + |sub| <= |s| && s[i..i + |sub|] == sub
    ensures Contains(s, sub)
    decreases i
  {
    if i > 0 {
      assert s[1..][i - 1..i - 1 + |sub|] == s[i..i + |sub|];
      ContainsAt(s[1..], sub, i - 1);
    }
  }

  /** A contained needle is no longer than the text, and a non-empty one
      has its first character in the text. */
  lemma {:induction false} ContainsBounds(s: string, sub: string)
    requires Contains(s, sub)
    ensures |sub| <= |s|
    ensures |sub| > 0 ==> sub[0] in s
    decreases |s|
  {
    if !StartsWith(s, sub) {
      ContainsBounds(s[1..], sub);
    } else if |sub| > 0 {
      assert s[0] == sub[0];
    }
  }

  /** Text placed between two others is contained in the whole. */
  lemma ContainsMiddle(a: string, x: string, b: string)
    ensures Contains(a + x + b, x)
  {
    assert (a + x + b)[|a|..|a| + |x|] == x;
    ContainsAt(a + x + b, x, |a|);
  }

  /** Text contained in `x` stays contained when `x` is surrounded. */
  lemma {:induction false} ContainsWithin(a: string, x: string, b: string, sub: string)
    requires Contains(x, sub)
    ensures Contains(a + x + b, sub)
    decreases |x|
  {
    if StartsWith(x, sub) {
      assert (a + x + b)[|a|..|a| + |sub|] == sub;
      ContainsAt(a + x + b, sub, |a|);
    } else {
      ContainsWithin(a + [x[0]], x[1..], b, sub);
      assert a + [x[0]] + x[1..] == a + x;
    }
  }

  /** A text starts with any prefix of its own start. */
  lemma StartsWithAppend(s: string, t: string)
    ensures StartsWith(s + t, s)
  {
    assert (s + t)[..|s|] == s;
  }

  /** Appending the empty string changes nothing. */
  lemma AppendEmpty(s: string)
    ensures s + "" == s
  {
  }

  /** Regrouping a text built by appending three pieces. */
  lemma AppendAssoc(s: string, a: string, b: string, c: string)
    ensures s + a + b + c == s + (a + b + c)
  {
  }

  /** QStringList::join. */
  function Join(parts: seq<string>, sep: string): string
    decreases |parts|
  {
    if |parts| == 0 then ""
    else if |parts| == 1 then parts[0]
    else parts[0] + sep + Join(parts[1..], sep)
  }

  /** Joining one more part appends the separator and that part. */
  lemma {:induction false} JoinSnoc(parts: seq<string>, p: string, sep: string)
    requires |parts| > 0
    ensures Join(parts + [p], sep) == Join(parts, sep) + sep + p
    decreases |parts|
  {
    if |parts| == 1 {
      assert parts + [p] == [parts[0], p];
    } else {
      assert (parts + [p])[1..] == parts[1..] + [p];
      JoinSnoc(parts[1..], p, sep);
    }
  }

  /** Each part occurs in the joined text. */
  lemma {:induction false} JoinMember(parts: seq<string>, sep: string, k: nat)
    requires k < |parts|
    ensures Contains(Join(parts, sep), parts[k])
    decreases |parts|
  {
    if k == 0 {
      if |parts| == 1 {
        ContainsAt(parts[0], parts[0], 0);
      } else {
        ContainsMiddle("", parts[0], sep + Join(parts[1..], sep));
        assert "" + parts[0] + (sep + Join(parts[1..], sep)) == Join(parts, sep);
      }
    } else {
      JoinMember(parts[1..], sep, k - 1);
      ContainsWithin(parts[0] + sep, Join(parts[1..], sep), "", parts[k]);
      assert parts[0] + sep + Join(parts[1..], sep) + "" == Join(parts, sep);
    }
  }

  /** Every part of a joined list occurs in a text built around the join. */
  lemma JoinWithin(s: string, a: string, parts: seq<string>, sep: string, b: string)
    requires s == a + Join(parts, sep) + b
    ensures forall k :: 0 <= k < |parts| ==> Contains(s, parts[k])
  {
    forall k | 0 <= k < |parts|
      ensures Contains(s, parts[k])
    {
      JoinMember(parts, sep, k);
      ContainsWithin(a, Join(parts, sep), b, parts[k]);
    }
  }

  /** What the front of a text contains, the text contains. */
  lemma ContainsHead(s: string, front: string, rest: string, sub: string)
    requires s == front + rest && Contains(front, sub)
    ensures Contains(s, sub)
  {
    ContainsWithin("", front, rest, sub);
    assert "" + front + rest == s;
  }

  /** A text built as `a + x + b` contains `x`. */
  lemma ContainsPart(s: string, a: string, x: string, b: string)
    requires s == a + x + b
    ensures Contains(s, x)
  {
    ContainsMiddle(a, x, b);
  }

  /** Appending the separator and the next part to a text ending in the join
      of the parts before it. */
  lemma JoinStep(t: string, parts: seq<string>, i: nat, sep: string)
    requires 1 <= i < |parts|
    ensures t + Join(parts[..i + 1], sep) == t + Join(parts[..i], sep) + sep + parts[i]
  {
    assert parts[..i + 1] == parts[..i] + [parts[i]];
    JoinSnoc(parts[..i], parts[i], sep);
  }

  /** Concatenation of a sequence of strings. */
  function Concat(ss: seq<string>): string
    decreases |ss|
  {
    if |ss| == 0 then "" else ss[0] + Concat(ss[1..])
  }

  /** Concatenation distributes over sequence concatenation. */
  lemma {:induction false} ConcatAppend(a: seq<string>, b: seq<string>)
    ensures Concat(a + b) == Concat(a) + Concat(b)
    decreases |a|
  {
    if |a| > 0 {
      assert (a + b)[1..] == a[1..] + b;
      ConcatAppend(a[1..], b);
    } else {
      assert a + b == b;
    }
  }

  /** Concatenation of a sequence extended by one string. */
  lemma ConcatSnoc(a: seq<string>, s: string)
    ensures Concat(a + [s]) == Concat(a) + s
  {
    ConcatAppend(a, [s]);
    assert Concat([s]) == s + Concat([]);
  }

  /** Appending the next string of `ss` to a text ending in the
      concatenation of the strings before it. */
  lemma ConcatStep(t: string, ss: seq<string>, i: nat)
    requires i < |ss|
    ensures t + Concat(ss[..i + 1]) == t + Concat(ss[..i]) + ss[i]
  {
    assert ss[..i + 1] == ss[..i] + [ss[i]];
    ConcatSnoc(ss[..i], ss[i]);
  }

  /** Each string of `ss` occurs in their concatenation. */
  lemma ConcatMember(ss: seq<string>, k: nat)
    requires k < |ss|
    ensures Contains(Concat(ss), ss[k])
  {
    assert ss == ss[..k] + [ss[k]] + ss[k + 1..];
    ConcatAppend(ss[..k] + [ss[k]], ss[k + 1..]);
    ConcatSnoc(ss[..k], ss[k]);
    ContainsMiddle(Concat(ss[..k]), ss[k], Concat(ss[k + 1..]));
  }

  /** The UTF-16 code units of one character: a surrogate pair for a
      character above U+FFFF, one unit otherwise. */
  function Utf16Units(c: char): nat
  {
    if c as int > 0xFFFF then 2 else 1
  }

  /** QString::length: the number of UTF-16 code units of the text. It is
      the number of characters exactly when none lies above U+FFFF, and at
      most twice that number. */
  function Utf16Length(s: string): (n: nat)
    ensures |s| <= n <= 2 * |s|
    ensures n == |s| <==> forall i :: 0 <= i < |s| ==> s[i] as int <= 0xFFFF
    decreases |s|
  {
    if |s| == 0 then 0
    else
      var n := Utf16Units(s[0]) + Utf16Length(s[1..]);
      assert forall i :: 1 <= i < |s| ==> s[i] == s[1..][i - 1];
      n
  }

  /** A character outside the Basic Multilingual Plane, such as an emoji, is
      one character but two UTF-16 code units. */
  lemma SupplementaryCharLength()
    ensures |"\U{1F600}"| == 1 && Utf16Length("\U{1F600}") == 2
  {
  }

  /** Decimal digits of a natural number. */
  function Digits(n: nat): (r: string)
    ensures |r| > 0
    ensures forall i :: 0 <= i < |r| ==> '0' <= r[i] <= '9'
    decreases n
  {
    var d := [(48 + n % 10) as char];
    if n < 10 then d else Digits(n / 10) + d
  }

  /** QString::number(int): optional minus sign followed by decimal digits. */
  function DecimalString(i: int): (r: string)
    ensures |r| > 0
    ensures (r[0] == '-') <==> i < 0
  {
    if i < 0 then "-" + Digits(-i) else Digits(i)
  }
}
