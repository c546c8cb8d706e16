/**
  Backquoted identifiers in MySQL text: the constraint names a statement
  mentions are what lies between its pairs of backquotes, read left to right.
 */
module Quoting {

  /** Text that holds no backquote, so it cannot open or close an identifier. */
  predicate Plain(s: string) { forall i :: 0 <= i < |s| ==> s[i] != '`' }

  lemma PlainAppend(a: string, b: string)
    ensures Plain(a + b) == (Plain(a) && Plain(b))
  {
    if Plain(a) && Plain(b) {
      forall i | 0 <= i < |a + b|
        ensures (a + b)[i] != '`'
      {
        if i >= |a| {
          assert (a + b)[i] == b[i - |a|];
        }
      }
    }
    if Plain(a + b) {
      forall i | 0 <= i < |a|
        ensures a[i] != '`'
      {
        assert (a + b)[i] == a[i];
      }
      forall i | 0 <= i < |b|
        ensures b[i] != '`'
      {
        assert (a + b)[|a| + i] == b[i];
      }
    }
  }

  /** An identifier between backquotes. */
  function Quote(n: string): string { "`" + n + "`" }

  /** The longest prefix of `s` that holds no backquote. */
  function Unquoted(s: string): (u: string)
    ensures |u| <= |s| && u == s[..|u|]
    ensures Plain(u)
    ensures |u| == |s| || s[|u|] == '`'
    decreases |s|
  {
    if s == [] || s[0] == '`' then [] else [s[0]] + Unquoted(s[1..])
  }

  /** The backquoted identifiers of `s`, from left to right; an unmatched
      backquote at the end opens nothing. */
  function QuotedNames(s: string): seq<string>
    decreases |s|, 1
  {
    var u := Unquoted(s);
    if |u| == |s| then [] else NamesAfterOpen(s[|u| + 1..])
  }

  /** The identifiers of the text that follows an opening backquote. */
  function NamesAfterOpen(rest: string): seq<string>
    decreases |rest|, 0
  {
    var n := Unquoted(rest);
    if |n| == |rest| then [] else [n] + QuotedNames(rest[|n| + 1..])
  }

  /** Text whose every opening backquote is matched by a closing one. */
  predicate Closed(s: string)
    decreases |s|, 1
  {
    var u := Unquoted(s);
    |u| == |s| || ClosedAfterOpen(s[|u| + 1..])
  }

  predicate ClosedAfterOpen(rest: string)
    decreases |rest|, 0
  {
    var n := Unquoted(rest);
    |n| < |rest| && Closed(rest[|n| + 1..])
  }

  lemma {:induction false} UnquotedAppend(a: string, b: string)
    requires Plain(a)
    ensures Unquoted(a + b) == a + Unquoted(b)
    decreases |a|
  {
    if a != [] {
      assert (a + b)[0] == a[0];
      assert (a + b)[1..] == a[1..] + b;
      UnquotedAppend(a[1..], b);
    } else {
      assert a + b == b;
    }
  }

  lemma UnquotedStops(u: string, r: string)
    requires Plain(u)
    ensures Unquoted(u + ['`'] + r) == u
  {
    assert u + ['`'] + r == u + (['`'] + r);
    UnquotedAppend(u, ['`'] + r);
  }

  lemma QuoteParts(u: string, n: string, r: string)
    ensures u + ['`'] + (n + ['`'] + r) == u + Quote(n) + r
  {
  }

  /** Text that holds a backquote is plain text, a backquote and the rest. */
  lemma SplitAtQuote(a: string) returns (u: string, rest: string)
    requires !Plain(a)
    ensures a == u + ['`'] + rest && Plain(u) && u == Unquoted(a)
  {
    u := Unquoted(a);
    rest := a[|u| + 1..];
    assert a == u + ['`'] + rest;
  }

  /** Closed text that holds a backquote starts with plain text and one identifier. */
  lemma SplitFirstQuote(a: string) returns (u: string, n: string, a2: string)
    requires Closed(a) && !Plain(a)
    ensures a == u + Quote(n) + a2
    ensures Plain(u) && Plain(n) && Closed(a2)
  {
    var rest;
    u, rest := SplitAtQuote(a);
    assert u == Unquoted(a);
    n := Unquoted(rest);
    a2 := rest[|n| + 1..];
    assert rest == n + ['`'] + a2;
    QuoteParts(u, n, a2);
  }

  /** Plain text in front adds no identifier. */
  lemma QuotedSkip(u: string, r: string)
    requires Plain(u)
    ensures QuotedNames(u + r) == QuotedNames(r)
  {
    UnquotedAppend(u, r);
    var ur := Unquoted(r);
    if |ur| < |r| {
      assert (u + r)[|u| + |ur| + 1..] == r[|ur| + 1..];
    }
  }

  lemma ClosedSkip(u: string, r: string)
    requires Plain(u)
    ensures Closed(u + r) == Closed(r)
  {
    UnquotedAppend(u, r);
    var ur := Unquoted(r);
    if |ur| < |r| {
      assert (u + r)[|u| + |ur| + 1..] == r[|ur| + 1..];
    }
  }

  lemma PlainNames(u: string)
    requires Plain(u)
    ensures QuotedNames(u) == [] && Closed(u)
  {
  }

  /** A backquoted identifier after plain text is the first identifier. */
  lemma QuoteStep(u: string, n: string, r: string)
    requires Plain(u) && Plain(n)
    ensures QuotedNames(u + Quote(n) + r) == [n] + QuotedNames(r)
  {
    var rest := n + ['`'] + r;
    QuoteParts(u, n, r);
    UnquotedStops(u, rest);
    var s := u + ['`'] + rest;
    assert s[|u| + 1..] == rest;
    UnquotedStops(n, r);
    assert rest[|n| + 1..] == r;
  }

  lemma ClosedStep(u: string, n: string, r: string)
    requires Plain(u) && Plain(n)
    ensures Closed(u + Quote(n) + r) == Closed(r)
  {
    var rest := n + ['`'] + r;
    QuoteParts(u, n, r);
    UnquotedStops(u, rest);
    var s := u + ['`'] + rest;
    assert s[|u| + 1..] == rest;
    UnquotedStops(n, r);
    assert rest[|n| + 1..] == r;
  }

  lemma QuoteNames(n: string)
    requires Plain(n)
    ensures QuotedNames(Quote(n)) == [n] && Closed(Quote(n))
  {
    QuoteStep("", n, "");
    ClosedStep("", n, "");
    assert "" + Quote(n) + "" == Quote(n);
  }

  lemma Regroup(u: string, n: string, a: string, b: string)
    ensures (u + Quote(n) + a) + b == u + Quote(n) + (a + b)
  {
  }

  lemma QuotedAppendStep(u: string, n: string, a2: string, b: string)
    requires Plain(u) && Plain(n)
    requires QuotedNames(a2 + b) == QuotedNames(a2) + QuotedNames(b)
    ensures QuotedNames(u + Quote(n) + a2 + b) == QuotedNames(u + Quote(n) + a2) + QuotedNames(b)
  {
    var x, y := QuotedNames(a2), QuotedNames(b);
    calc {
      QuotedNames(u + Quote(n) + a2 + b);
      { Regroup(u, n, a2, b); }
      QuotedNames(u + Quote(n) + (a2 + b));
      { QuoteStep(u, n, a2 + b); }
      [n] + (x + y);
      { SeqAssoc([n], x, y); }
      ([n] + x) + y;
      { QuoteStep(u, n, a2); }
      QuotedNames(u + Quote(n) + a2) + y;
    }
  }

  lemma SeqAssoc(a: seq<string>, b: seq<string>, c: seq<string>)
    ensures a + (b + c) == (a + b) + c
  {
  }

  /** The identifiers of closed text followed by more text are read separately. */
  lemma {:induction false} QuotedAppend(a: string, b: string)
    requires Closed(a)
    ensures QuotedNames(a + b) == QuotedNames(a) + QuotedNames(b)
    decreases |a|
  {
    if Plain(a) {
      QuotedSkip(a, b);
      PlainNames(a);
    } else {
      var u, n, a2 := SplitFirstQuote(a);
      QuotedAppend(a2, b);
      QuotedAppendStep(u, n, a2, b);
    }
  }

  /** Closed text followed by closed text is closed. */
  lemma {:induction false} ClosedAppend(a: string, b: string)
    requires Closed(a)
    ensures Closed(a + b) == Closed(b)
    decreases |a|
  {
    if Plain(a) {
      ClosedSkip(a, b);
    } else {
      var u, n, a2 := SplitFirstQuote(a);
      calc {
        Closed(a + b);
        { Regroup(u, n, a2, b); }
        Closed(u + Quote(n) + (a2 + b));
        { ClosedStep(u, n, a2 + b); }
        Closed(a2 + b);
        { ClosedAppend(a2, b); }
        Closed(b);
      }
    }
  }

  /** `s` backquotes exactly the identifiers `ns`, and leaves none open. */
  predicate Mentions(s: string, ns: seq<string>) { Closed(s) && QuotedNames(s) == ns }

  lemma MentionsPlain(s: string)
    requires Plain(s)
    ensures Mentions(s, [])
  {
    PlainNames(s);
  }

  lemma MentionsAppend(a: string, b: string, na: seq<string>, nb: seq<string>)
    requires Mentions(a, na) && Mentions(b, nb)
    ensures Mentions(a + b, na + nb)
  {
    QuotedAppend(a, b);
    ClosedAppend(a, b);
  }

  /** Plain text after closed text adds no identifier. */
  lemma MentionsThenPlain(a: string, b: string, na: seq<string>)
    requires Mentions(a, na) && Plain(b)
    ensures Mentions(a + b, na)
  {
    MentionsPlain(b);
    MentionsAppend(a, b, na, []);
    assert na + [] == na;
  }

  /** A quoted identifier after closed text is its next identifier. */
  lemma MentionsThenQuote(a: string, n: string, na: seq<string>)
    requires Mentions(a, na) && Plain(n)
    ensures Mentions(a + Quote(n), na + [n])
  {
    QuoteNames(n);
    MentionsAppend(a, Quote(n), na, [n]);
  }
}
