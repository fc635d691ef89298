/** Predicate references of harness/protocol.py: the textual form
    `name(arg1,arg2)`, its parser and its canonical printer. */
module PredRefs {
  import opened Options

  datatype Atom = Atom(name: string, args: seq<string>)

  /** A reference as text, or already split (a mapping, a tuple or a record). */
  datatype Ref = Text(text: string) | Split(atom: Atom)

  /** `str.isspace`, which `strip` and `\s` share. */
  predicate IsSpace(c: char) {
    || c == ' ' || '\t' <= c <= '\r' || '\U{1C}' <= c <= '\U{1F}' || c == '\U{85}' || c == '\U{A0}'
    || c == '\U{1680}' || '\U{2000}' <= c <= '\U{200A}' || c == '\U{2028}' || c == '\U{2029}'
    || c == '\U{202F}' || c == '\U{205F}' || c == '\U{3000}'
  }

  /** The letters and digits beyond ASCII. No value is given: nothing below depends
      on which characters they are. */
  const WORDS_BEYOND_ASCII: set<char>

  predicate IsLetter(c: char) {
    'a' <= c <= 'z' || 'A' <= c <= 'Z' || c == '_'
  }

  /** `\w`. */
  predicate IsWord(c: char) {
    IsLetter(c) || '0' <= c <= '9' || ('\U{7F}' < c && c in WORDS_BEYOND_ASCII && !IsSpace(c))
  }

  predicate IsIdentifier(s: string) {
    |s| > 0 && IsLetter(s[0]) && forall i :: 0 <= i < |s| ==> IsWord(s[i])
  }

  // -------------------------------------------------------------- trimming

  function TrimLeft(s: string): (r: string)
    ensures r == [] || !IsSpace(r[0])
  {
    if s != [] && IsSpace(s[0]) then TrimLeft(s[1..]) else s
  }

  function TrimRight(s: string): (r: string)
    ensures r <= s && (r == [] || !IsSpace(r[|r| - 1]))
  {
    if s != [] && IsSpace(s[|s| - 1]) then TrimRight(s[..|s| - 1]) else s
  }

  /** `str.strip()`. */
  function Strip(s: string): (r: string)
    ensures IsTrimmed(r)
  {
    TrimRight(TrimLeft(s))
  }

  predicate IsTrimmed(s: string) {
    s == [] || (!IsSpace(s[0]) && !IsSpace(s[|s| - 1]))
  }

  // ------------------------------------------------- splitting and joining

  /** `s.split(",")`. */
  function SplitCommas(s: string): (r: seq<string>)
    ensures |r| >= 1
  {
    if s == [] then [[]]
    else
      var rest := SplitCommas(s[1..]);
      if s[0] == ',' then [[]] + rest else [[s[0]] + rest[0]] + rest[1..]
  }

  /** The stripped nonempty parts. */
  function CleanParts(parts: seq<string>): (r: seq<string>) {
    if parts == [] then []
    else (if Strip(parts[0]) == [] then [] else [Strip(parts[0])]) + CleanParts(parts[1..])
  }

  function JoinCommas(parts: seq<string>): (r: string) {
    if parts == [] then []
    else if |parts| == 1 then parts[0]
    else parts[0] + [','] + JoinCommas(parts[1..])
  }

  // ------------------------------------------------------ parse and print

  function WordPrefix(s: string): (n: nat)
    ensures n <= |s| && forall i :: 0 <= i < n ==> IsWord(s[i])
  {
    if s != [] && IsWord(s[0]) then 1 + WordPrefix(s[1..]) else 0
  }

  /** What follows the name: nothing, or a parenthesised list without a newline. */
  function ParseArgs(rest: string): (r: Option<seq<string>>) {
    if rest == [] then Some([])
    else if |rest| >= 2 && rest[0] == '(' && rest[|rest| - 1] == ')' && '\n' !in rest[1..|rest| - 1]
    then Some(CleanParts(SplitCommas(rest[1..|rest| - 1])))
    else None
  }

  /** `^\s*([A-Za-z_]\w*)\s*(?:\((.*)\))?\s*$`, where `.` is no newline. */
  function ParseText(s: string): (r: Option<Atom>) {
    var t := Strip(s);
    var n := WordPrefix(t);
    if n == 0 || !IsLetter(t[0]) then None
    else
      match ParseArgs(TrimLeft(t[n..]))
      case None => None
      case Some(args) => Some(Atom(t[..n], args))
  }

  /** `parse_pred_ref`; None stands for the ValueError. */
  function Parse(ref: Ref): (r: Option<Atom>) {
    match ref
    case Text(s) => ParseText(s)
    case Split(a) => Some(a)
  }

  function Print(a: Atom): (r: string) {
    a.name + "(" + JoinCommas(a.args) + ")"
  }

  /** `pred_ref_str`. */
  function Canonical(ref: Ref): (r: Option<string>) {
    match Parse(ref)
    case None => None
    case Some(a) => Some(Print(a))
  }

  function Substitute(args: seq<string>, env: map<string, string>): (r: seq<string>)
    ensures |r| == |args|
    ensures forall i :: 0 <= i < |args| ==> r[i] == if args[i] in env then env[args[i]] else args[i]
  {
    seq(|args|, i requires 0 <= i < |args| => if args[i] in env then env[args[i]] else args[i])
  }

  /** `instantiate`: template slots replaced by the node's argument values. */
  function Instantiate(ref: Ref, env: map<string, string>): (r: Option<string>) {
    match Parse(ref)
    case None => None
    case Some(a) => Some(Print(Atom(a.name, Substitute(a.args, env))))
  }

  // ---------------------------------------------------------------- laws

  predicate PlainArg(a: string) {
    a != [] && IsTrimmed(a) && ',' !in a && '\n' !in a
  }

  /** The atoms that have a textual form. */
  predicate Printable(a: Atom) {
    IsIdentifier(a.name) && forall i :: 0 <= i < |a.args| ==> PlainArg(a.args[i])
  }

  lemma {:induction false} TrimLeftFixed(s: string)
    requires s == [] || !IsSpace(s[0])
    ensures TrimLeft(s) == s
  {
  }

  lemma {:induction false} SplitPart(a: string, rest: string)
    requires ',' !in a
    ensures SplitCommas(a + [','] + rest) == [a] + SplitCommas(rest)
    ensures SplitCommas(a) == [a]
  {
    if a == [] {
      assert (a + [','] + rest)[1..] == rest;
    } else {
      SplitPart(a[1..], rest);
      assert (a + [','] + rest)[1..] == a[1..] + [','] + rest;
      assert [a[0]] + a[1..] == a;
    }
  }

  lemma {:induction false} SplitJoin(parts: seq<string>)
    requires |parts| >= 1 && forall i :: 0 <= i < |parts| ==> ',' !in parts[i]
    ensures SplitCommas(JoinCommas(parts)) == parts
  {
    if |parts| == 1 {
      SplitPart(parts[0], []);
    } else {
      SplitPart(parts[0], JoinCommas(parts[1..]));
      SplitJoin(parts[1..]);
    }
  }

  lemma {:induction false} CleanFixed(parts: seq<string>)
    requires forall i :: 0 <= i < |parts| ==> parts[i] != [] && IsTrimmed(parts[i])
    ensures CleanParts(parts) == parts
  {
    if parts != [] {
      CleanFixed(parts[1..]);
      assert Strip(parts[0]) == parts[0];
    }
  }

  lemma {:induction false} JoinNoNewline(parts: seq<string>)
    requires forall i :: 0 <= i < |parts| ==> '\n' !in parts[i]
    ensures '\n' !in JoinCommas(parts)
  {
    if |parts| > 1 {
      JoinNoNewline(parts[1..]);
    }
  }

  lemma {:induction false} WordPrefixOf(name: string, rest: string)
    requires (forall i :: 0 <= i < |name| ==> IsWord(name[i])) && rest != [] && !IsWord(rest[0])
    ensures WordPrefix(name + rest) == |name|
  {
    if name == [] {
      assert name + rest == rest;
    } else {
      WordPrefixOf(name[1..], rest);
      assert (name + rest)[1..] == name[1..] + rest;
    }
  }

  lemma {:induction false} TrimLeftAvoids(s: string, c: char)
    requires c !in s
    ensures c !in TrimLeft(s)
  {
    if s != [] {
      TrimLeftAvoids(s[1..], c);
    }
  }

  lemma {:induction false} CleanAvoids(parts: seq<string>, c: char)
    requires forall i :: 0 <= i < |parts| ==> c !in parts[i]
    ensures forall i :: 0 <= i < |CleanParts(parts)| ==> c !in CleanParts(parts)[i]
  {
    if parts != [] {
      TrimLeftAvoids(parts[0], c);
      CleanAvoids(parts[1..], c);
    }
  }

  lemma {:induction false} CleanTrims(parts: seq<string>)
    ensures forall i :: 0 <= i < |CleanParts(parts)| ==> CleanParts(parts)[i] != [] && IsTrimmed(CleanParts(parts)[i])
  {
    if parts != [] {
      CleanTrims(parts[1..]);
    }
  }

  lemma {:induction false} SplitAvoids(s: string, c: char)
    requires c !in s || c == ','
    ensures forall i :: 0 <= i < |SplitCommas(s)| ==> c !in SplitCommas(s)[i]
  {
    if s != [] {
      SplitAvoids(s[1..], c);
    }
  }

  lemma {:induction false} ArgsArePlain(rest: string)
    requires ParseArgs(rest).Some?
    ensures forall i :: 0 <= i < |ParseArgs(rest).value| ==> PlainArg(ParseArgs(rest).value[i])
  {
    if rest != [] {
      var inner := rest[1..|rest| - 1];
      SplitAvoids(inner, ',');
      SplitAvoids(inner, '\n');
      CleanAvoids(SplitCommas(inner), ',');
      CleanAvoids(SplitCommas(inner), '\n');
      CleanTrims(SplitCommas(inner));
    }
  }

  lemma {:induction false} ArgsRoundTrip(args: seq<string>, rest: string)
    requires forall i :: 0 <= i < |args| ==> PlainArg(args[i])
    requires |rest| >= 2 && rest[0] == '(' && rest[|rest| - 1] == ')'
    requires rest[1..|rest| - 1] == JoinCommas(args)
    ensures ParseArgs(rest) == Some(args)
  {
    JoinNoNewline(args);
    if args == [] {
      assert SplitCommas([]) == [[]] && Strip([]) == [];
      assert CleanParts([[]]) == CleanParts([]) == [];
    } else {
      SplitJoin(args);
      CleanFixed(args);
    }
  }

  /** Whatever the parser accepts is printable. */
  lemma {:induction false} ParsedIsPrintable(s: string)
    requires ParseText(s).Some?
    ensures Printable(ParseText(s).value)
  {
    var t := Strip(s);
    ArgsArePlain(TrimLeft(t[WordPrefix(t)..]));
  }

  lemma {:induction false} StripFixed(s: string)
    requires IsTrimmed(s)
    ensures Strip(s) == s
  {
  }

  lemma {:induction false} PrintParses(a: Atom)
    requires Printable(a)
    ensures ParseText(Print(a)) == Some(a)
  {
    var tail := "(" + JoinCommas(a.args) + ")";
    var s := Print(a);
    assert s == a.name + tail;
    StripFixed(s);
    WordPrefixOf(a.name, tail);
    assert s[|a.name|..] == tail && s[..|a.name|] == a.name;
    TrimLeftFixed(tail);
    assert tail[1..|tail| - 1] == JoinCommas(a.args);
    ArgsRoundTrip(a.args, tail);
  }

  /** Printing followed by parsing is the identity exactly on the printable atoms. */
  lemma {:induction false} RoundTrip(a: Atom)
    ensures ParseText(Print(a)) == Some(a) <==> Printable(a)
  {
    if Printable(a) {
      PrintParses(a);
    } else if ParseText(Print(a)) == Some(a) {
      ParsedIsPrintable(Print(a));
    }
  }

  /** On printable atoms, equality of the printed strings is equality of the atoms. */
  lemma {:induction false} PrintInjective(a: Atom, b: Atom)
    requires Printable(a) && Printable(b)
    ensures Print(a) == Print(b) <==> a == b
  {
    PrintParses(a);
    PrintParses(b);
  }

  /** Canonicalising an accepted text twice changes nothing more. */
  lemma {:induction false} CanonicalIdempotent(s: string)
    requires Canonical(Text(s)).Some?
    ensures Canonical(Text(Canonical(Text(s)).value)) == Canonical(Text(s))
    ensures ParseText(Canonical(Text(s)).value) == ParseText(s)
  {
    ParsedIsPrintable(s);
    PrintParses(ParseText(s).value);
  }

  // ------------------------------------------------------- instantiated atoms

  /** Every argument that stands for a template slot is bound to a plain value. */
  predicate PlainBindings(args: seq<string>, env: map<string, string>) {
    forall i :: 0 <= i < |args| && args[i] in env ==> PlainArg(env[args[i]])
  }

  /** The text of an instantiated reference reads back as the instantiated atom
      exactly when the values put into it are plain. */
  lemma {:induction false} InstanceReadsBack(a: Atom, env: map<string, string>)
    requires Printable(a)
    ensures Instantiate(Split(a), env) == Some(Print(Atom(a.name, Substitute(a.args, env))))
    ensures ParseText(Print(Atom(a.name, Substitute(a.args, env)))) == Some(Atom(a.name, Substitute(a.args, env)))
            <==> PlainBindings(a.args, env)
  {
    var b := Atom(a.name, Substitute(a.args, env));
    RoundTrip(b);
    forall i | 0 <= i < |a.args|
      ensures PlainArg(b.args[i]) <==> (a.args[i] in env ==> PlainArg(env[a.args[i]]))
    {
      assert b.args[i] == if a.args[i] in env then env[a.args[i]] else a.args[i];
    }
  }

  /** So on plain values the validator's string comparisons compare instantiated atoms. */
  lemma {:induction false} InstancesCompareAsAtoms(a: Atom, b: Atom, u: map<string, string>, v: map<string, string>)
    requires Printable(a) && Printable(b) && PlainBindings(a.args, u) && PlainBindings(b.args, v)
    ensures Instantiate(Split(a), u) == Instantiate(Split(b), v) <==>
      a.name == b.name && Substitute(a.args, u) == Substitute(b.args, v)
  {
    InstanceReadsBack(a, u);
    InstanceReadsBack(b, v);
  }

  /** And on others they need not: one value with a comma is taken for two. */
  lemma {:induction false} CommaMergesAtoms(slot: string)
    requires PlainArg(slot)
    ensures var one, two := Atom("near", [slot]), Atom("near", ["a", "b"]);
            && Printable(one) && Printable(two)
            && Instantiate(Split(one), map[slot := "a,b"]) == Instantiate(Split(two), map[])
            && Substitute(one.args, map[slot := "a,b"]) != Substitute(two.args, map[])
  {
    var env := map[slot := "a,b"];
    assert Substitute([slot], env) == ["a,b"] && Substitute(["a", "b"], map[]) == ["a", "b"];
    assert JoinCommas(["a,b"]) == "a,b";
    assert ["a", "b"][1..] == ["b"];
    assert JoinCommas(["a", "b"]) == "a" + [','] + "b" == "a,b";
    assert PlainArg("a") && PlainArg("b");
  }
}
