/**
  The parts of Go's `strings` package that the migrator relies on, restricted
  to ASCII: case mapping, suffix tests, joining, trimming and splitting on
  white space.
 */
module Strings {

  predicate IsUpper(c: char) { 'A' <= c <= 'Z' }

  predicate IsLower(c: char) { 'a' <= c <= 'z' }

  /** The ASCII white-space characters recognised by `unicode.IsSpace`. */
  predicate IsSpace(c: char) {
    c == ' ' || c == '\t' || c == '\n' || c == '\r' || c == '\U{000B}' || c == '\U{000C}'
  }

  /** True iff no character of `s` is white space. */
  predicate NoSpace(s: string) {
    forall i :: 0 <= i < |s| ==> !IsSpace(s[i])
  }

  predicate AllSpace(s: string) {
    forall i :: 0 <= i < |s| ==> IsSpace(s[i])
  }

  function LowerChar(c: char): (d: char)
    ensures !IsUpper(d)
    ensures IsUpper(c) ==> d as int == c as int + 32
    ensures !IsUpper(c) ==> d == c
  {
    if IsUpper(c) then (c as int + 32) as char else c
  }

  function UpperChar(c: char): (d: char)
    ensures !IsLower(d)
    ensures IsLower(c) ==> d as int == c as int - 32
    ensures !IsLower(c) ==> d == c
  {
    if IsLower(c) then (c as int - 32) as char else c
  }

  /** `strings.ToLower` on ASCII text. */
  function ToLower(s: string): (r: string)
    ensures |r| == |s|
    ensures forall i :: 0 <= i < |s| ==> r[i] == LowerChar(s[i])
  {
    seq(|s|, i requires 0 <= i < |s| => LowerChar(s[i]))
  }

  /** `strings.ToUpper` on ASCII text. */
  function ToUpper(s: string): (r: string)
    ensures |r| == |s|
    ensures forall i :: 0 <= i < |s| ==> r[i] == UpperChar(s[i])
  {
    seq(|s|, i requires 0 <= i < |s| => UpperChar(s[i]))
  }

  lemma ToLowerAppend(a: string, b: string)
    ensures ToLower(a + b) == ToLower(a) + ToLower(b)
  {
    assert forall i :: 0 <= i < |a + b| ==> ToLower(a + b)[i] == (ToLower(a) + ToLower(b))[i];
  }

  lemma ToLowerIdempotent(s: string)
    ensures ToLower(ToLower(s)) == ToLower(s)
  {
  }

  lemma AppendAssoc(a: string, b: string, c: string)
    ensures (a + b) + c == a + (b + c)
  {
  }

  lemma AppendEmpty(a: string)
    ensures a + "" == a
  {
  }

  /** `strings.HasPrefix`. */
  predicate HasPrefix(s: string, prefix: string) {
    |prefix| <= |s| && s[..|prefix|] == prefix
  }

  /** `strings.HasSuffix`. */
  predicate HasSuffix(s: string, suffix: string) {
    |suffix| <= |s| && s[|s| - |suffix|..] == suffix
  }

  lemma PrefixThen(s: string, p: string, x: string)
    requires HasPrefix(s, p)
    ensures HasPrefix(s + x, p)
  {
    assert (s + x)[..|p|] == s[..|p|];
  }

  lemma SuffixOfAppend(s: string, x: string)
    ensures HasSuffix(s + x, x)
  {
    assert (s + x)[|s|..] == x;
  }

  /** `strings.Join`: the parts with `sep` between consecutive ones. */
  function Join(parts: seq<string>, sep: string): string
    decreases |parts|
  {
    if |parts| == 0 then ""
    else if |parts| == 1 then parts[0]
    else parts[0] + sep + Join(parts[1..], sep)
  }

  /** Appending one part to a non-empty list appends the separator and the part. */
  lemma {:induction false} JoinSnoc(parts: seq<string>, x: string, sep: string)
    requires |parts| > 0
    ensures Join(parts + [x], sep) == Join(parts, sep) + sep + x
    decreases |parts|
  {
    if |parts| == 1 {
      assert parts + [x] == [parts[0], x];
      assert (parts + [x])[1..] == [x];
    } else {
      assert (parts + [x])[0] == parts[0];
      assert (parts + [x])[1..] == parts[1..] + [x];
      JoinSnoc(parts[1..], x, sep);
    }
  }

  /** The concatenation of all parts. */
  function Concat(parts: seq<string>): string
    decreases |parts|
  {
    if |parts| == 0 then "" else parts[0] + Concat(parts[1..])
  }

  lemma {:induction false} ConcatSnoc(parts: seq<string>, x: string)
    ensures Concat(parts + [x]) == Concat(parts) + x
    decreases |parts|
  {
    if |parts| == 0 {
      assert parts + [x] == [x];
      assert Concat([x]) == x + Concat([]);
    } else {
      assert (parts + [x])[0] == parts[0];
      assert (parts + [x])[1..] == parts[1..] + [x];
      ConcatSnoc(parts[1..], x);
    }
  }

  /** `s` with every white-space character deleted. */
  function RemoveSpace(s: string): (r: string)
    ensures NoSpace(r)
    decreases |s|
  {
    if s == [] then []
    else if IsSpace(s[0]) then RemoveSpace(s[1..])
    else [s[0]] + RemoveSpace(s[1..])
  }

  lemma {:induction false} RemoveSpaceAppend(a: string, b: string)
    ensures RemoveSpace(a + b) == RemoveSpace(a) + RemoveSpace(b)
    decreases |a|
  {
    if a == [] {
      assert a + b == b;
    } else {
      assert (a + b)[0] == a[0];
      assert (a + b)[1..] == a[1..] + b;
      RemoveSpaceAppend(a[1..], b);
    }
  }

  // ---------------------------------------------------------------------------
  // strings.TrimSpace

  function TrimLeft(s: string): (r: string)
    ensures |r| <= |s| && r == s[|s| - |r|..]
    ensures r == [] || !IsSpace(r[0])
    ensures AllSpace(s[..|s| - |r|])
    decreases |s|
  {
    if s != [] && IsSpace(s[0]) then TrimLeft(s[1..]) else s
  }

  function TrimRight(s: string): (r: string)
    ensures |r| <= |s| && r == s[..|r|]
    ensures r == [] || !IsSpace(r[|r| - 1])
    ensures AllSpace(s[|r|..])
    decreases |s|
  {
    if s != [] && IsSpace(s[|s| - 1]) then TrimRight(s[..|s| - 1]) else s
  }

  /** `strings.TrimSpace`: `s` without its leading and trailing white space. */
  function TrimSpace(s: string): (r: string)
  {
    TrimRight(TrimLeft(s))
  }

  lemma {:induction false} TrimLeftSkips(ws: string, s: string)
    requires AllSpace(ws)
    ensures TrimLeft(ws + s) == TrimLeft(s)
    decreases |ws|
  {
    if ws != [] {
      assert (ws + s)[0] == ws[0];
      assert (ws + s)[1..] == ws[1..] + s;
      TrimLeftSkips(ws[1..], s);
    } else {
      assert ws + s == s;
    }
  }

  lemma {:induction false} TrimRightSkips(s: string, ws: string)
    requires AllSpace(ws)
    ensures TrimRight(s + ws) == TrimRight(s)
    decreases |ws|
  {
    if ws != [] {
      assert (s + ws)[|s + ws| - 1] == ws[|ws| - 1];
      assert (s + ws)[..|s + ws| - 1] == s + ws[..|ws| - 1];
      TrimRightSkips(s, ws[..|ws| - 1]);
    } else {
      assert s + ws == s;
    }
  }

  lemma {:induction false} TrimLeftAppendSpace(s: string, ws: string)
    requires AllSpace(ws)
    ensures TrimRight(TrimLeft(s + ws)) == TrimRight(TrimLeft(s))
    decreases |s|
  {
    if s != [] && IsSpace(s[0]) {
      assert (s + ws)[0] == s[0];
      assert (s + ws)[1..] == s[1..] + ws;
      TrimLeftAppendSpace(s[1..], ws);
    } else if s == [] {
      assert s + ws == ws;
      TrimLeftSkips(ws, "");
      assert ws + "" == ws;
    } else {
      assert TrimLeft(s + ws) == s + ws;
      TrimRightSkips(s, ws);
    }
  }

  /** Surrounding white space of any length does not change the trimmed text. */
  lemma TrimSpaceIgnoresPadding(before: string, s: string, after: string)
    requires AllSpace(before) && AllSpace(after)
    ensures TrimSpace(before + s + after) == TrimSpace(s)
  {
    assert before + s + after == before + (s + after);
    TrimLeftSkips(before, s + after);
    TrimLeftAppendSpace(s, after);
  }

  // ---------------------------------------------------------------------------
  // strings.Fields

  /** The longest prefix of `s` that holds no white space. */
  function Word(s: string): (w: string)
    ensures |w| <= |s| && w == s[..|w|]
    ensures NoSpace(w)
    ensures |w| == |s| || IsSpace(s[|w|])
    decreases |s|
  {
    if s == [] || IsSpace(s[0]) then [] else [s[0]] + Word(s[1..])
  }

  /** `strings.Fields`: the maximal runs of non-white-space characters, in order. */
  function Fields(s: string): (fs: seq<string>)
    ensures forall k :: 0 <= k < |fs| ==> fs[k] != [] && NoSpace(fs[k])
    decreases |s|
  {
    if s == [] then []
    else if IsSpace(s[0]) then Fields(s[1..])
    else
      var w := Word(s);
      [w] + Fields(s[|w|..])
  }

  /** Concatenating the fields gives back the text without its white space. */
  lemma {:induction false} FieldsConcat(s: string)
    ensures Concat(Fields(s)) == RemoveSpace(s)
    decreases |s|
  {
    if s == [] {
    } else if IsSpace(s[0]) {
      FieldsConcat(s[1..]);
    } else {
      var w := Word(s);
      assert s == w + s[|w|..];
      FieldsConcat(s[|w|..]);
      RemoveSpaceAppend(w, s[|w|..]);
      NoSpaceRemoveSpace(w);
      assert Fields(s)[1..] == Fields(s[|w|..]);
    }
  }

  lemma {:induction false} NoSpaceRemoveSpace(s: string)
    requires NoSpace(s)
    ensures RemoveSpace(s) == s
    decreases |s|
  {
    if s != [] {
      NoSpaceRemoveSpace(s[1..]);
    }
  }

  /** Text without white space is a single field (or none, when empty). */
  lemma FieldsOfWord(s: string)
    requires NoSpace(s)
    ensures Fields(s) == if s == [] then [] else [s]
  {
    if s != [] {
      WordOfNoSpace(s);
      assert s[|s|..] == [];
    }
  }

  lemma {:induction false} WordOfNoSpace(s: string)
    requires NoSpace(s)
    ensures Word(s) == s
    decreases |s|
  {
    if s != [] {
      WordOfNoSpace(s[1..]);
    }
  }

  /** Joining white-space-free parts with a white-space-free separator leaves no white space. */
  lemma {:induction false} JoinNoSpace(parts: seq<string>, sep: string)
    requires NoSpace(sep)
    requires forall k :: 0 <= k < |parts| ==> NoSpace(parts[k])
    ensures NoSpace(Join(parts, sep))
    decreases |parts|
  {
    if |parts| > 1 {
      JoinNoSpace(parts[1..], sep);
      var rest := Join(parts[1..], sep);
      assert Join(parts, sep) == parts[0] + sep + rest;
      forall i | 0 <= i < |parts[0] + sep + rest|
        ensures !IsSpace((parts[0] + sep + rest)[i])
      {
        if i < |parts[0]| {
        } else if i < |parts[0]| + |sep| {
        } else {
          assert (parts[0] + sep + rest)[i] == rest[i - |parts[0]| - |sep|];
        }
      }
    }
  }
}
