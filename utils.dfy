/**
  Naming and type helpers of the `utils` package: pluralisation of table
  names, the conversion of Go identifiers to MySQL names, and the mapping of
  Go field types to MySQL column types.
 */
module Utils {
  import opened Strings

  // ---------------------------------------------------------------------------
  // utils/pluralize.go

  /** `isVowel`: the byte is one of the five lower-case vowels. */
  predicate IsVowel(c: char) {
    c in "aeiou"
  }

  /** The one input `Pluralize` cannot take: a lone "y" (or "Y"), for which
      the letter before the final 'y' does not exist. */
  predicate PluralizeDefined(word: string) {
    HasSuffix(ToLower(word), "y") ==> |word| >= 2
  }

  /** `Pluralize`: the plural of an English word by suffix rules; a word whose
      lower-cased form already ends in "s" is taken to be plural already. */
  function Pluralize(word: string): string
    requires PluralizeDefined(word)
  {
    var lowered := ToLower(word);
    if HasSuffix(lowered, "s") || HasSuffix(lowered, "es") || HasSuffix(lowered, "ies") then
      word
    else if HasSuffix(lowered, "y") && !IsVowel(lowered[|lowered| - 2]) then
      word[..|word| - 1] + "ies"
    else if HasSuffix(lowered, "o") || HasSuffix(lowered, "ch") || HasSuffix(lowered, "sh") then
      word + "es"
    else if HasSuffix(lowered, "f") || HasSuffix(lowered, "fe") then
      if HasSuffix(lowered, "fe") then word[..|word| - 2] + "ves"
      else word[..|word| - 1] + "ves"
    else
      word + "s"
  }

  /** The last character of `Pluralize(word)`, lower-cased, is an 's'. */
  lemma PluralizeLastChar(word: string)
    requires PluralizeDefined(word)
    ensures |Pluralize(word)| > 0 && LowerChar(Pluralize(word)[|Pluralize(word)| - 1]) == 's'
    ensures Pluralize(word) == word <==> HasSuffix(ToLower(word), "s")
    ensures Pluralize(word) != word ==> |Pluralize(word)| > |word|
  {
    var n := |word|;
    var lowered := ToLower(word);
    if HasSuffix(lowered, "s") || HasSuffix(lowered, "es") || HasSuffix(lowered, "ies") {
      assert Pluralize(word) == word;
      assert lowered[n - 1] == 's';
    } else if HasSuffix(lowered, "y") && !IsVowel(lowered[|lowered| - 2]) {
      assert Pluralize(word) == word[..n - 1] + "ies";
    } else if HasSuffix(lowered, "o") || HasSuffix(lowered, "ch") || HasSuffix(lowered, "sh") {
      assert Pluralize(word) == word + "es";
    } else if HasSuffix(lowered, "f") || HasSuffix(lowered, "fe") {
      if HasSuffix(lowered, "fe") {
        assert Pluralize(word) == word[..n - 2] + "ves";
      } else {
        assert Pluralize(word) == word[..n - 1] + "ves";
      }
    } else {
      assert Pluralize(word) == word + "s";
    }
  }

  /** Every result of `Pluralize` ends in an 's', and the word is returned
      unchanged exactly when its lower-cased form already ends in one. */
  lemma PluralizeEndsInS(word: string)
    requires PluralizeDefined(word)
    ensures HasSuffix(ToLower(Pluralize(word)), "s")
    ensures Pluralize(word) == word <==> HasSuffix(ToLower(word), "s")
    ensures Pluralize(word) != word ==> |Pluralize(word)| > |word|
  {
    PluralizeLastChar(word);
    var l := ToLower(Pluralize(word));
    assert l[|l| - 1..] == "s";
  }

  /** Pluralising a plural changes nothing. */
  lemma PluralizeIdempotent(word: string)
    requires PluralizeDefined(word)
    ensures PluralizeDefined(Pluralize(word))
    ensures Pluralize(Pluralize(word)) == Pluralize(word)
  {
    var r := Pluralize(word);
    PluralizeLastChar(word);
    var l := ToLower(r);
    assert l[|l| - 1] == 's';
    assert !HasSuffix(l, "y");
    assert HasSuffix(l, "s") by { assert l[|l| - 1..] == "s"; }
    PluralizeLastChar(r);
  }

  /** A consonant followed by a final 'y' becomes "ies"; a vowel followed by 'y' only gains an 's'. */
  lemma PluralizeFinalY(word: string)
    requires |word| >= 2 && LowerChar(word[|word| - 1]) == 'y'
    ensures !IsVowel(LowerChar(word[|word| - 2])) ==> Pluralize(word) == word[..|word| - 1] + "ies"
    ensures IsVowel(LowerChar(word[|word| - 2])) ==> Pluralize(word) == word + "s"
  {
    var lowered := ToLower(word);
    var n := |word|;
    assert lowered[n - 1..] == "y";
    assert !HasSuffix(lowered, "s") && !HasSuffix(lowered, "o") && !HasSuffix(lowered, "f");
    assert !HasSuffix(lowered, "es") && !HasSuffix(lowered, "ies");
    assert !HasSuffix(lowered, "ch") && !HasSuffix(lowered, "sh") && !HasSuffix(lowered, "fe");
  }

  /** A word ending in 'o', "ch" or "sh" (in any case) gains "es". */
  lemma PluralizeSibilant(word: string)
    requires var l := ToLower(word); HasSuffix(l, "o") || HasSuffix(l, "ch") || HasSuffix(l, "sh")
    ensures Pluralize(word) == word + "es"
  {
    var l := ToLower(word);
    var last := l[|l| - 1];
    assert last == 'o' || last == 'h';
    assert !HasSuffix(l, "s") && !HasSuffix(l, "y");
    assert !HasSuffix(l, "es") && !HasSuffix(l, "ies");
  }

  /** A word ending in "fe" loses two characters and one ending in 'f' loses
      one, and either gains "ves". */
  lemma PluralizeFricative(word: string)
    requires var l := ToLower(word); HasSuffix(l, "f") || HasSuffix(l, "fe")
    ensures HasSuffix(ToLower(word), "fe") ==> Pluralize(word) == word[..|word| - 2] + "ves"
    ensures HasSuffix(ToLower(word), "f") ==> Pluralize(word) == word[..|word| - 1] + "ves"
  {
    var l := ToLower(word);
    var last := l[|l| - 1];
    assert last == 'f' || last == 'e';
    assert !HasSuffix(l, "s") && !HasSuffix(l, "y") && !HasSuffix(l, "o");
    assert !HasSuffix(l, "es") && !HasSuffix(l, "ies");
    assert !HasSuffix(l, "ch") && !HasSuffix(l, "sh");
  }

  /** A word whose last letter is none of those the other rules look at gains an 's'. */
  lemma PluralizeDefault(word: string)
    requires |word| >= 1
    requires var c := LowerChar(word[|word| - 1]);
      c != 's' && c != 'y' && c != 'o' && c != 'h' && c != 'f' && c != 'e'
    ensures Pluralize(word) == word + "s"
  {
    var l := ToLower(word);
    var last := l[|l| - 1];
    assert last == LowerChar(word[|word| - 1]);
    assert !HasSuffix(l, "s") && !HasSuffix(l, "y") && !HasSuffix(l, "o");
    assert !HasSuffix(l, "es") && !HasSuffix(l, "ies");
    assert !HasSuffix(l, "ch") && !HasSuffix(l, "sh");
    assert !HasSuffix(l, "f") && !HasSuffix(l, "fe");
  }

  // ---------------------------------------------------------------------------
  // utils/snake_case.go

  /** No lower-case ASCII letter is immediately followed by an upper-case one. */
  predicate NoCamelBoundary(s: string) {
    forall i :: 0 <= i < |s| - 1 ==> !(IsLower(s[i]) && IsUpper(s[i + 1]))
  }

  /** The replacement of the pattern `([a-z])([A-Z])` by `${1} ${2}`: a space
      between every lower-case letter and the upper-case letter after it.
      Two matches can never overlap (no letter is both lower and upper case),
      so the left-to-right scan finds every such pair. */
  function SplitCamel(s: string): string
    decreases |s|
  {
    if |s| < 2 then s
    else if IsLower(s[0]) && IsUpper(s[1]) then [s[0], ' '] + SplitCamel(s[1..])
    else [s[0]] + SplitCamel(s[1..])
  }

  /** `ToSnakeCase`: split camel-case boundaries, split on white space, join with '_'. */
  function ToSnakeCase(s: string): (r: string)
    ensures NoSpace(r)
  {
    var fields := Fields(SplitCamel(s));
    JoinNoSpace(fields, "_");
    Join(fields, "_")
  }

  /** The reference behaviour on text without white space: an '_' between each
      lower-case letter and the upper-case letter that follows it. */
  function Underscored(s: string): (r: string)
    decreases |s|
  {
    if |s| < 2 then s
    else if IsLower(s[0]) && IsUpper(s[1]) then [s[0], '_'] + Underscored(s[1..])
    else [s[0]] + Underscored(s[1..])
  }

  /** `ToMysqlName`: the lower-case snake-case form of a Go identifier. */
  function ToMysqlName(word: string): (r: string)
    ensures NoSpace(r)
    ensures forall i :: 0 <= i < |r| ==> !IsUpper(r[i])
  {
    ToLower(ToSnakeCase(word))
  }

  lemma {:induction false} SplitCamelKeepsText(s: string)
    ensures RemoveSpace(SplitCamel(s)) == RemoveSpace(s)
    decreases |s|
  {
    if |s| >= 2 {
      SplitCamelKeepsText(s[1..]);
      assert s == [s[0]] + s[1..];
      RemoveSpaceAppend([s[0]], s[1..]);
      if IsLower(s[0]) && IsUpper(s[1]) {
        RemoveSpaceAppend([s[0], ' '], SplitCamel(s[1..]));
        assert RemoveSpace([s[0], ' ']) == [s[0]];
      } else {
        RemoveSpaceAppend([s[0]], SplitCamel(s[1..]));
      }
    }
  }

  /** The output of `ToSnakeCase` is the input's non-white-space text, in
      order, cut into non-empty white-space-free pieces joined by '_'. */
  lemma SnakeCasePieces(s: string)
    ensures var pieces := Fields(SplitCamel(s));
      && ToSnakeCase(s) == Join(pieces, "_")
      && Concat(pieces) == RemoveSpace(s)
      && (forall k :: 0 <= k < |pieces| ==> pieces[k] != [] && NoSpace(pieces[k]))
  {
    FieldsConcat(SplitCamel(s));
    SplitCamelKeepsText(s);
  }

  // --- at word boundaries: exactly one '_' per lower-to-upper pair

  /** Every white-space character stands alone between two non-white-space characters. */
  predicate SpacesIsolated(u: string) {
    forall i :: 0 <= i < |u| && IsSpace(u[i]) ==> 0 < i < |u| - 1 && !IsSpace(u[i - 1]) && !IsSpace(u[i + 1])
  }

  function SpaceToUnderscore(u: string): (r: string)
    ensures |r| == |u|
    ensures forall i :: 0 <= i < |u| ==> r[i] == if IsSpace(u[i]) then '_' else u[i]
  {
    seq(|u|, i requires 0 <= i < |u| => if IsSpace(u[i]) then '_' else u[i])
  }

  lemma FieldsAtWord(u: string)
    requires u != [] && !IsSpace(u[0])
    ensures Fields(u) == [Word(u)] + Fields(u[|Word(u)|..])
  {
  }

  lemma SpaceToUnderscoreSplit(w: string, c: char, rest: string)
    requires NoSpace(w) && IsSpace(c)
    ensures SpaceToUnderscore(w + [c] + rest) == w + "_" + SpaceToUnderscore(rest)
  {
    var u := w + [c] + rest;
    assert forall i :: |w| + 1 <= i < |u| ==> u[i] == rest[i - |w| - 1];
  }

  lemma IsolatedTail(u: string, k: nat)
    requires SpacesIsolated(u) && k <= |u| && (k > 0 ==> IsSpace(u[k - 1]))
    ensures SpacesIsolated(u[k..])
  {
    var rest := u[k..];
    forall i | 0 <= i < |rest| && IsSpace(rest[i])
      ensures 0 < i < |rest| - 1 && !IsSpace(rest[i - 1]) && !IsSpace(rest[i + 1])
    {
      assert rest[i] == u[k + i];
    }
  }

  /** Past the first word and the single white space after it, the fields go on. */
  lemma JoinAtSpace(u: string)
    requires SpacesIsolated(u) && u != [] && |Word(u)| < |u|
    ensures var w := Word(u);
      Join(Fields(u), "_") == w + "_" + Join(Fields(u[|w| + 1..]), "_")
  {
    var w := Word(u);
    var rest := u[|w| + 1..];
    FieldsAtWord(u);
    IsolatedTail(u, |w| + 1);
    assert u[|w|..] == [u[|w|]] + rest;
    assert Fields(u[|w|..]) == Fields(rest);
    assert rest != [] && !IsSpace(rest[0]);
    FieldsAtWord(rest);
  }

  lemma {:induction false} JoinFieldsIsolated(u: string)
    requires SpacesIsolated(u)
    ensures Join(Fields(u), "_") == SpaceToUnderscore(u)
    decreases |u|
  {
    if u != [] {
      var w := Word(u);
      if |w| == |u| {
        FieldsAtWord(u);
        assert w == u;
        assert u[|w|..] == [];
      } else {
        var rest := u[|w| + 1..];
        IsolatedTail(u, |w| + 1);
        JoinFieldsIsolated(rest);
        JoinAtSpace(u);
        assert u == w + [u[|w|]] + rest;
        SpaceToUnderscoreSplit(w, u[|w|], rest);
      }
    }
  }

  lemma {:induction false} SplitCamelIsolatesSpaces(s: string)
    requires NoSpace(s)
    ensures SpacesIsolated(SplitCamel(s))
    ensures SpaceToUnderscore(SplitCamel(s)) == Underscored(s)
    ensures |s| > 0 ==> |SplitCamel(s)| > 0 && SplitCamel(s)[0] == s[0]
    decreases |s|
  {
    if |s| >= 2 {
      SplitCamelIsolatesSpaces(s[1..]);
      var t := SplitCamel(s[1..]);
      if IsLower(s[0]) && IsUpper(s[1]) {
        var u := [s[0], ' '] + t;
        forall i | 0 <= i < |u| && IsSpace(u[i])
          ensures 0 < i < |u| - 1 && !IsSpace(u[i - 1]) && !IsSpace(u[i + 1])
        {
          if i >= 2 { assert u[i] == t[i - 2]; }
        }
        assert SpaceToUnderscore(u) == [s[0], '_'] + SpaceToUnderscore(t);
      } else {
        var u := [s[0]] + t;
        forall i | 0 <= i < |u| && IsSpace(u[i])
          ensures 0 < i < |u| - 1 && !IsSpace(u[i - 1]) && !IsSpace(u[i + 1])
        {
          assert u[i] == t[i - 1];
        }
        assert SpaceToUnderscore(u) == [s[0]] + SpaceToUnderscore(t);
      }
    }
  }

  /** On white-space-free text `ToSnakeCase` puts exactly one '_' between each
      lower-case letter and a following upper-case letter and changes nothing else. */
  lemma SnakeCaseBoundaries(s: string)
    requires NoSpace(s)
    ensures ToSnakeCase(s) == Underscored(s)
  {
    SplitCamelIsolatesSpaces(s);
    JoinFieldsIsolated(SplitCamel(s));
  }

  lemma UserIDNoSpace(s: string)
    requires s == "UserID"
    ensures NoSpace(s) && Underscored(s) == "User_ID"
  {
    forall i | 0 <= i < |s| ensures !IsSpace(s[i]) { }
    assert Underscored("ID") == "ID";
    assert Underscored("rID") == "r_ID";
    assert Underscored("erID") == "er_ID";
    assert Underscored("serID") == "ser_ID";
  }

  /** The example of the source's comment: "UserID" becomes "User_ID". */
  lemma SnakeCaseUserID(s: string)
    requires s == "UserID"
    ensures ToSnakeCase(s) == "User_ID"
  {
    UserIDNoSpace(s);
    SnakeCaseBoundaries(s);
  }

  // --- fixed points and idempotence

  lemma {:induction false} SplitCamelFixpoint(s: string)
    requires NoCamelBoundary(s)
    ensures SplitCamel(s) == s
    decreases |s|
  {
    if |s| >= 2 {
      SplitCamelFixpoint(s[1..]);
    }
  }

  /** Text without white space and without a lower-to-upper pair is returned unchanged. */
  lemma SnakeCaseFixpoint(s: string)
    requires NoSpace(s) && NoCamelBoundary(s)
    ensures ToSnakeCase(s) == s
  {
    SplitCamelFixpoint(s);
    FieldsOfWord(s);
  }

  lemma {:induction false} SplitCamelNoBoundary(s: string)
    ensures NoCamelBoundary(SplitCamel(s))
    ensures |s| > 0 ==> |SplitCamel(s)| > 0 && SplitCamel(s)[0] == s[0]
    decreases |s|
  {
    if |s| >= 2 {
      SplitCamelNoBoundary(s[1..]);
      var t := SplitCamel(s[1..]);
      if IsLower(s[0]) && IsUpper(s[1]) {
        var u := [s[0], ' '] + t;
        forall i | 0 <= i < |u| - 1 ensures !(IsLower(u[i]) && IsUpper(u[i + 1])) {
          if i >= 2 { assert u[i] == t[i - 2] && u[i + 1] == t[i - 1]; }
        }
      } else {
        var u := [s[0]] + t;
        forall i | 0 <= i < |u| - 1 ensures !(IsLower(u[i]) && IsUpper(u[i + 1])) {
          if i >= 1 { assert u[i] == t[i - 1] && u[i + 1] == t[i]; }
        }
      }
    }
  }

  lemma {:induction false} FieldsNoBoundary(s: string)
    requires NoCamelBoundary(s)
    ensures forall k :: 0 <= k < |Fields(s)| ==> NoCamelBoundary(Fields(s)[k])
    decreases |s|
  {
    if s == [] {
    } else if IsSpace(s[0]) {
      FieldsNoBoundary(s[1..]);
    } else {
      var w := Word(s);
      assert NoCamelBoundary(w) by {
        forall i | 0 <= i < |w| - 1 ensures !(IsLower(w[i]) && IsUpper(w[i + 1])) {
          assert w[i] == s[i] && w[i + 1] == s[i + 1];
        }
      }
      var rest := s[|w|..];
      assert NoCamelBoundary(rest) by {
        forall i | 0 <= i < |rest| - 1 ensures !(IsLower(rest[i]) && IsUpper(rest[i + 1])) {
          assert rest[i] == s[|w| + i] && rest[i + 1] == s[|w| + i + 1];
        }
      }
      FieldsNoBoundary(rest);
      assert Fields(s) == [w] + Fields(rest);
    }
  }

  lemma {:induction false} JoinNoBoundary(parts: seq<string>)
    requires forall k :: 0 <= k < |parts| ==> NoCamelBoundary(parts[k])
    ensures NoCamelBoundary(Join(parts, "_"))
    decreases |parts|
  {
    if |parts| > 1 {
      JoinNoBoundary(parts[1..]);
      var a, rest := parts[0], Join(parts[1..], "_");
      var u := a + "_" + rest;
      assert Join(parts, "_") == u;
      forall i | 0 <= i < |u| - 1 ensures !(IsLower(u[i]) && IsUpper(u[i + 1])) {
        if i + 1 < |a| {
          assert u[i] == a[i] && u[i + 1] == a[i + 1];
        } else if i + 1 == |a| {
          assert u[i + 1] == '_';
        } else if i == |a| {
          assert u[i] == '_';
        } else {
          assert u[i] == rest[i - |a| - 1] && u[i + 1] == rest[i - |a|];
        }
      }
    }
  }

  /** The output of `ToSnakeCase` has no lower-to-upper pair left. */
  lemma SnakeCaseNoBoundary(s: string)
    ensures NoCamelBoundary(ToSnakeCase(s))
  {
    SplitCamelNoBoundary(s);
    FieldsNoBoundary(SplitCamel(s));
    JoinNoBoundary(Fields(SplitCamel(s)));
  }

  lemma SnakeCaseIdempotent(s: string)
    ensures ToSnakeCase(ToSnakeCase(s)) == ToSnakeCase(s)
  {
    SnakeCaseNoBoundary(s);
    SnakeCaseFixpoint(ToSnakeCase(s));
  }

  /** `ToMysqlName` is the lower case of `ToSnakeCase`, and applying it twice changes nothing. */
  lemma ToMysqlNameIdempotent(word: string)
    ensures ToMysqlName(ToMysqlName(word)) == ToMysqlName(word)
  {
    var v := ToMysqlName(word);
    assert NoCamelBoundary(v);
    SnakeCaseFixpoint(v);
  }

  // ---------------------------------------------------------------------------
  // utils/mysql_data_type.go

  datatype Result<T> = Ok(value: T) | Err(message: string)

  /** The Go type names that have a built-in MySQL counterpart, with that
      counterpart: the table the `switch` of `ToMysqlDataType` encodes. */
  const MysqlTypes: map<string, string> := map[
    "string" := "varchar(255)",
    "int" := "bigint", "int32" := "bigint", "int64" := "bigint",
    "uint" := "bigint unsigned", "uint32" := "bigint unsigned", "uint64" := "bigint unsigned",
    "float32" := "float", "float64" := "double",
    "time.Time" := "datetime(3)",
    "bool" := "tinyint(1)"]

  /** The keys of the table are exactly the eleven names the `switch` lists. */
  lemma MysqlTypesKeys(t: string)
    ensures t in MysqlTypes <==>
      t == "string" || t == "int" || t == "int32" || t == "int64" || t == "uint" || t == "uint32" ||
      t == "uint64" || t == "float32" || t == "float64" || t == "time.Time" || t == "bool"
  {
  }

  lemma MysqlTypesValues()
    ensures MysqlTypes["string"] == "varchar(255)"
    ensures MysqlTypes["int"] == "bigint" && MysqlTypes["int32"] == "bigint" && MysqlTypes["int64"] == "bigint"
    ensures MysqlTypes["uint"] == "bigint unsigned" && MysqlTypes["uint32"] == "bigint unsigned"
    ensures MysqlTypes["uint64"] == "bigint unsigned"
    ensures MysqlTypes["float32"] == "float" && MysqlTypes["float64"] == "double"
    ensures MysqlTypes["time.Time"] == "datetime(3)" && MysqlTypes["bool"] == "tinyint(1)"
  {
  }

  /** `ToMysqlDataType`: the MySQL column type for a Go field type, ignoring
      surrounding white space, or an error naming the input. */
  function ToMysqlDataType(s: string): (r: Result<string>)
    ensures r.Ok? <==> TrimSpace(s) in MysqlTypes
    ensures r.Ok? ==> r.value == MysqlTypes[TrimSpace(s)]
    ensures r.Err? ==> r.message == "Cannot convert " + s + " to mysql type, explicit definition in tags required!"
  {
    var t := TrimSpace(s);
    MysqlTypesKeys(t);
    MysqlTypesValues();
    if t == "string" then Ok("varchar(255)")
    else if t == "int" || t == "int32" || t == "int64" then Ok("bigint")
    else if t == "uint" || t == "uint32" || t == "uint64" then Ok("bigint unsigned")
    else if t == "float32" then Ok("float")
    else if t == "float64" then Ok("double")
    else if t == "time.Time" then Ok("datetime(3)")
    else if t == "bool" then Ok("tinyint(1)")
    else Err("Cannot convert " + s + " to mysql type, explicit definition in tags required!")
  }

  /** White space around the Go type name does not change the mapping. */
  lemma MysqlDataTypeIgnoresPadding(before: string, s: string, after: string)
    requires AllSpace(before) && AllSpace(after)
    ensures ToMysqlDataType(before + s + after).Ok? == ToMysqlDataType(s).Ok?
    ensures ToMysqlDataType(s).Ok? ==> ToMysqlDataType(before + s + after).value == ToMysqlDataType(s).value
  {
    TrimSpaceIgnoresPadding(before, s, after);
  }
}
