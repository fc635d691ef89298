/** Which texts `parse_pred_ref` accepts and what it reads: the regular expression
    `^\s*([A-Za-z_]\w*)\s*(?:\((.*)\))?\s*$` as a grammar. */
module PredGrammar {
  import opened Options
  import opened PredRefs
  import Lists

  predicate Blank(s: string) {
    forall i :: 0 <= i < |s| ==> IsSpace(s[i])
  }

  /** The blanks, listed by code point; a name has none. */
  lemma {:induction false} Blanks(c: char)
    ensures IsSpace(c) ==> !IsWord(c)
    ensures IsSpace(c) <==>
      c as int in {9, 10, 11, 12, 13, 28, 29, 30, 31, 32, 133, 160, 5760, 8192, 8193, 8194, 8195, 8196, 8197,
                   8198, 8199, 8200, 8201, 8202, 8232, 8233, 8239, 8287, 12288}
  {
  }

  /** A name begins with an ASCII letter or the underscore; ASCII digits may follow. */
  lemma {:induction false} NameCharacters(c: char)
    ensures IsLetter(c) <==> c == '_' || 65 <= c as int < 65 + 26 || 97 <= c as int < 97 + 26
    ensures c as int < 128 ==> (IsWord(c) <==> IsLetter(c) || c in "0123456789")
  {
    if '0' <= c <= '9' {
      assert "0123456789"[c as int - 48] == c;
    }
  }

  // ----------------------------------------------------------------- stripping

  lemma {:induction false} TrimLeftSplits(s: string) returns (l: string)
    ensures Blank(l) && s == l + TrimLeft(s)
  {
    if s != [] && IsSpace(s[0]) {
      var rest := TrimLeftSplits(s[1..]);
      l := [s[0]] + rest;
      assert TrimLeft(s) == TrimLeft(s[1..]);
      assert s == [s[0]] + (rest + TrimLeft(s[1..])) == l + TrimLeft(s);
    } else {
      l := [];
    }
  }

  lemma {:induction false} TrimRightSplits(s: string) returns (r: string)
    ensures Blank(r) && s == TrimRight(s) + r
  {
    if s != [] && IsSpace(s[|s| - 1]) {
      var init := TrimRightSplits(s[..|s| - 1]);
      r := init + [s[|s| - 1]];
      assert s == s[..|s| - 1] + [s[|s| - 1]];
    } else {
      r := [];
    }
  }

  /** Stripping removes blanks at both ends, and all of them. */
  lemma {:induction false} StripSplits(s: string) returns (l: string, r: string)
    ensures Blank(l) && Blank(r) && s == l + Strip(s) + r && IsTrimmed(Strip(s))
  {
    l := TrimLeftSplits(s);
    r := TrimRightSplits(TrimLeft(s));
  }

  lemma {:induction false} TrimLeftOf(l: string, t: string)
    requires Blank(l) && (t == [] || !IsSpace(t[0]))
    ensures TrimLeft(l + t) == t
  {
    if l == [] {
      assert l + t == t;
    } else {
      TrimLeftOf(l[1..], t);
      assert (l + t)[1..] == l[1..] + t && (l + t)[0] == l[0];
    }
  }

  lemma {:induction false} TrimRightOf(t: string, r: string)
    requires Blank(r) && (t == [] || !IsSpace(t[|t| - 1]))
    ensures TrimRight(t + r) == t
  {
    if r == [] {
      assert t + r == t;
    } else {
      TrimRightOf(t, r[..|r| - 1]);
      assert (t + r)[..|t + r| - 1] == t + r[..|r| - 1] && (t + r)[|t + r| - 1] == r[|r| - 1];
    }
  }

  lemma {:induction false} StripOf(l: string, t: string, r: string)
    requires Blank(l) && Blank(r) && t != [] && IsTrimmed(t)
    ensures Strip(l + t + r) == t
  {
    assert (t + r)[0] == t[0];
    TrimLeftOf(l, t + r);
    assert l + t + r == l + (t + r);
    TrimRightOf(t, r);
  }

  // ------------------------------------------------------------- the arguments

  /** The parts between the commas: joined again they are the text. */
  lemma {:induction false} SplitsAtCommas(s: string)
    ensures JoinCommas(SplitCommas(s)) == s && forall i :: 0 <= i < |SplitCommas(s)| ==> ',' !in SplitCommas(s)[i]
  {
    SplitAvoids(s, ',');
    if s == [] {
      assert SplitCommas(s) == [[]];
    } else {
      var rest := SplitCommas(s[1..]);
      SplitsAtCommas(s[1..]);
      assert s == [s[0]] + s[1..];
      if s[0] == ',' {
        assert ([[]] + rest)[1..] == rest;
        assert JoinCommas([[]] + rest) == [] + [','] + JoinCommas(rest);
      } else {
        JoinLonger(s[0], rest);
      }
    }
  }

  lemma {:induction false} JoinLonger(c: char, parts: seq<string>)
    requires parts != []
    ensures JoinCommas([[c] + parts[0]] + parts[1..]) == [c] + JoinCommas(parts)
  {
    var longer := [[c] + parts[0]] + parts[1..];
    if |parts| > 1 {
      assert longer[1..] == parts[1..];
      assert [c] + parts[0] + [','] + JoinCommas(parts[1..]) == [c] + (parts[0] + [','] + JoinCommas(parts[1..]));
    }
  }

  function OnePart(part: string): (r: seq<string>) {
    if Strip(part) == [] then [] else [Strip(part)]
  }

  lemma {:induction false} CleanCons(part: string, parts: seq<string>)
    ensures CleanParts([part] + parts) == OnePart(part) + CleanParts(parts)
  {
    assert ([part] + parts)[1..] == parts;
  }

  lemma {:induction false} CleanConcat(a: seq<string>, b: seq<string>)
    ensures CleanParts(a + b) == CleanParts(a) + CleanParts(b)
  {
    if a == [] {
      assert a + b == b;
    } else {
      var head, rest := OnePart(a[0]), a[1..];
      CleanConcat(rest, b);
      CleanCons(a[0], rest);
      CleanCons(a[0], rest + b);
      Lists.HeadFirst(a, b);
      Lists.Regroup(head, CleanParts(rest), CleanParts(b));
    }
  }

  /** Of the parts, the stripped nonempty ones are kept, in order. */
  lemma {:induction false} CleanIs(a: seq<string>, b: seq<string>, part: string)
    ensures CleanParts(a + b) == CleanParts(a) + CleanParts(b)
    ensures CleanParts([part]) == if Strip(part) == [] then [] else [Strip(part)]
  {
    CleanConcat(a, b);
    CleanCons(part, []);
    assert [part] + [] == [part];
  }

  // --------------------------------------------------------------- the grammar

  function Parenthesised(inner: Option<string>): (r: string) {
    if inner.Some? then "(" + inner.value + ")" else ""
  }

  function ArgsIn(inner: Option<string>): (r: seq<string>) {
    if inner.Some? then CleanParts(SplitCommas(inner.value)) else []
  }

  /** The text is this name, possibly followed by a list in parentheses without a
      newline, with blanks around both. */
  ghost predicate Reads(s: string, name: string, inner: Option<string>) {
    exists l, m, r :: ReadsBetween(s, l, name, m, inner, r)
  }

  predicate ReadsBetween(s: string, l: string, name: string, m: string, inner: Option<string>, r: string) {
    && IsIdentifier(name) && (inner.Some? ==> '\n' !in inner.value)
    && Blank(l) && Blank(m) && Blank(r) && s == l + name + m + Parenthesised(inner) + r
  }

  lemma {:induction false} BlankIsNoWord(c: char)
    requires IsSpace(c)
    ensures !IsWord(c) && c != '('
  {
  }

  lemma {:induction false} NameEnds(name: string, rest: string)
    requires (forall i :: 0 <= i < |name| ==> IsWord(name[i])) && (rest == [] || !IsWord(rest[0]))
    ensures WordPrefix(name + rest) == |name|
  {
    if rest != [] {
      WordPrefixOf(name, rest);
    } else {
      assert name + rest == name;
      if name != [] {
        NameEnds(name[1..], []);
        assert name[1..] + [] == name[1..];
      }
    }
  }

  lemma {:induction false} WordsAreTrimmed(name: string)
    requires IsIdentifier(name)
    ensures name != [] && IsTrimmed(name)
  {
  }

  lemma {:induction false} ListArgs(inner: string)
    requires '\n' !in inner
    ensures ParseArgs("(" + inner + ")") == Some(CleanParts(SplitCommas(inner)))
  {
    var tail := "(" + inner + ")";
    assert tail[1..|tail| - 1] == inner && tail[0] == '(' && tail[|tail| - 1] == ')';
  }

  lemma {:induction false} BareNameParses(l: string, name: string, r: string)
    requires Blank(l) && Blank(r) && IsIdentifier(name)
    ensures ParseText(l + name + r) == Some(Atom(name, []))
  {
    WordsAreTrimmed(name);
    StripOf(l, name, r);
    NameEnds(name, []);
    assert name + [] == name && name[..|name|] == name && name[|name|..] == [];
  }

  lemma {:induction false} ListParses(l: string, name: string, m: string, inner: string, r: string)
    requires Blank(l) && Blank(m) && Blank(r) && IsIdentifier(name) && '\n' !in inner
    ensures ParseText(l + name + m + ("(" + inner + ")") + r) == Some(Atom(name, CleanParts(SplitCommas(inner))))
  {
    var tail := "(" + inner + ")";
    var t, rest := name + (m + tail), m + tail;
    assert t[0] == name[0] && t[|t| - 1] == ')';
    StripOf(l, t, r);
    assert l + name + m + tail + r == l + t + r;
    if m != [] {
      BlankIsNoWord(m[0]);
    }
    assert rest[0] == if m == [] then '(' else m[0];
    NameEnds(name, rest);
    assert t[..|name|] == name && t[|name|..] == rest;
    TrimLeftOf(m, tail);
    ListArgs(inner);
  }

  /** Every text of the grammar is accepted and read as the grammar says. */
  lemma {:induction false} GrammarParses(s: string, name: string, inner: Option<string>)
    requires Reads(s, name, inner)
    ensures ParseText(s) == Some(Atom(name, ArgsIn(inner)))
  {
    var l, m, r :| ReadsBetween(s, l, name, m, inner, r);
    if inner.Some? {
      ListParses(l, name, m, inner.value, r);
    } else {
      BareNameParses(l, name, m + r);
      assert s == l + name + (m + r);
    }
  }

  lemma {:induction false} TailReads(tail: string) returns (inner: Option<string>)
    requires ParseArgs(tail).Some?
    ensures tail == Parenthesised(inner) && (inner.Some? ==> '\n' !in inner.value)
    ensures ParseArgs(tail) == Some(ArgsIn(inner))
  {
    if tail == [] {
      inner := None;
    } else {
      inner := Some(tail[1..|tail| - 1]);
      assert tail == "(" + inner.value + ")";
    }
  }

  lemma {:induction false} PrefixIsName(t: string)
    requires WordPrefix(t) > 0 && IsLetter(t[0])
    ensures IsIdentifier(t[..WordPrefix(t)]) && t == t[..WordPrefix(t)] + t[WordPrefix(t)..]
  {
  }

  lemma {:induction false} Reassembled(s: string, l: string, t: string, r: string, name: string, rest: string,
                                       m: string, tail: string)
    requires s == l + t + r && t == name + rest && rest == m + tail
    ensures s == l + name + m + tail + r
  {
  }

  /** And nothing else is accepted. */
  lemma {:induction false} ParsedReads(s: string) returns (inner: Option<string>)
    requires ParseText(s).Some?
    ensures Reads(s, ParseText(s).value.name, inner) && ParseText(s).value.args == ArgsIn(inner)
  {
    var l, r := StripSplits(s);
    var t := Strip(s);
    PrefixIsName(t);
    var name, rest := t[..WordPrefix(t)], t[WordPrefix(t)..];
    var m := TrimLeftSplits(rest);
    inner := TailReads(TrimLeft(rest));
    Reassembled(s, l, t, r, name, rest, m, Parenthesised(inner));
    assert ReadsBetween(s, l, name, m, inner, r);
  }
}
