/** What the contract of a node is: the references of its record with the node's
    argument values in their slots. */
module NodeContracts {
  import opened Options
  import opened Digraph
  import opened Plans
  import opened PredRefs
  import opened Legality
  import LegalRuns

  /** Each argument of the atom that names an argument of the node is that
      argument's text, and every other one stays. */
  predicate Filled(args: seq<string>, slots: seq<string>, values: map<string, Value>) {
    && |args| == |slots|
    && forall i :: 0 <= i < |slots| ==> args[i] == if slots[i] in values then values[slots[i]].text else slots[i]
  }

  /** `text` is the reference with the node's argument values in its slots. */
  ghost predicate Fills(text: string, ref: Ref, values: map<string, Value>) {
    Parse(ref).Some? && exists args ::
      Filled(args, Parse(ref).value.args, values) && text == Print(Atom(Parse(ref).value.name, args))
  }

  ghost predicate AllFill(texts: seq<string>, refs: seq<Ref>, values: map<string, Value>) {
    |texts| == |refs| && forall i :: 0 <= i < |refs| ==> Fills(texts[i], refs[i], values)
  }

  predicate AllParse(refs: seq<Ref>) {
    forall i :: 0 <= i < |refs| ==> Parse(refs[i]).Some?
  }

  lemma {:induction false} InstanceFills(ref: Ref, n: Node)
    ensures Instantiate(ref, Env(n)).Some? <==> Parse(ref).Some?
    ensures Parse(ref).Some? ==> Fills(Instantiate(ref, Env(n)).value, ref, n.args)
  {
    if Parse(ref).Some? {
      var slots := Parse(ref).value.args;
      assert Filled(Substitute(slots, Env(n)), slots, n.args);
    }
  }

  lemma {:induction false} InstancesFill(refs: seq<Ref>, n: Node)
    ensures InstantiateAll(refs, Env(n)).Some? <==> AllParse(refs)
    ensures AllParse(refs) ==> AllFill(InstantiateAll(refs, Env(n)).value, refs, n.args)
  {
    if refs != [] {
      var init, last := refs[..|refs| - 1], refs[|refs| - 1];
      InstancesFill(init, n);
      InstanceFills(last, n);
      assert forall i :: 0 <= i < |init| ==> init[i] == refs[i];
    }
  }

  /** A node has a contract exactly when the record's references parse, and then its
      requirements and effects are the record's, in order, with the node's values
      in the slots; the clobbered atoms are those of the record. */
  lemma {:induction false} StepFills(n: Node, rec: Record)
    ensures StepOf(n, rec).Some? <==> AllParse(rec.needs) && AllParse(rec.gives) && AllParse(rec.clobbers)
    ensures StepOf(n, rec).Some? ==> AllFill(StepOf(n, rec).value.req, rec.needs, n.args)
    ensures StepOf(n, rec).Some? ==> AllFill(StepOf(n, rec).value.ens, rec.gives, n.args)
    ensures StepOf(n, rec).Some? ==>
      forall p :: p in StepOf(n, rec).value.clob <==>
        exists i :: 0 <= i < |rec.clobbers| && Fills(p, rec.clobbers[i], n.args)
  {
    InstancesFill(rec.needs, n);
    InstancesFill(rec.gives, n);
    InstancesFill(rec.clobbers, n);
    if StepOf(n, rec).Some? {
      var texts := InstantiateAll(rec.clobbers, Env(n)).value;
      forall p
        ensures p in StepOf(n, rec).value.clob <==>
          exists i :: 0 <= i < |rec.clobbers| && Fills(p, rec.clobbers[i], n.args)
      {
        if p in Elements(texts) {
          var i :| 0 <= i < |texts| && texts[i] == p;
          assert Fills(p, rec.clobbers[i], n.args);
        }
        if i :| 0 <= i < |rec.clobbers| && Fills(p, rec.clobbers[i], n.args) {
          FillsOnce(p, texts[i], rec.clobbers[i], n.args);
        }
      }
    }
  }

  lemma {:induction false} FillsOnce(p: string, q: string, ref: Ref, values: map<string, Value>)
    requires Fills(p, ref, values) && Fills(q, ref, values)
    ensures p == q
  {
    var slots, name := Parse(ref).value.args, Parse(ref).value.name;
    var a :| Filled(a, slots, values) && p == Print(Atom(name, a));
    var b :| Filled(b, slots, values) && q == Print(Atom(name, b));
    assert a == b;
  }

  /** The same of every node of a graph. */
  lemma {:induction false} GraphContracts(nodes: seq<Node>, records: Records, i: nat)
    requires UniqueIds(nodes) && SkillsKnown(nodes, records) && ContractsParse(nodes, records) && i < |nodes|
    ensures nodes[i].id in StepsOf(nodes, records)
    ensures var step, rec := StepsOf(nodes, records)[nodes[i].id], records[nodes[i].skill];
            && AllFill(step.req, rec.needs, nodes[i].args) && AllFill(step.ens, rec.gives, nodes[i].args)
            && forall p :: p in step.clob <==>
                 exists k :: 0 <= k < |rec.clobbers| && Fills(p, rec.clobbers[k], nodes[i].args)
  {
    LegalRuns.NodeMapAt(nodes, i);
    StepFills(nodes[i], records[nodes[i].skill]);
  }

  // ------------------------------------------------- what a predecessor produces

  /** `v` stands among the arguments of the reference once the slots are filled. */
  predicate MentionedIn(ref: Ref, values: map<string, Value>, v: string) {
    Parse(ref).Some? && exists j :: 0 <= j < |Parse(ref).value.args| && v == ValueAt(Parse(ref).value.args[j], values)
  }

  function ValueAt(slot: string, values: map<string, Value>): (r: string) {
    if slot in values then values[slot].text else slot
  }

  /** `v` is an argument of one of the node's effects. */
  predicate Mentions(n: Node, rec: Record, v: string) {
    exists k :: 0 <= k < |rec.gives| && MentionedIn(rec.gives[k], n.args, v)
  }

  /** The effects are atoms that print and read back, and so are the node's values. */
  predicate PlainEffects(n: Node, rec: Record) {
    && (forall k :: 0 <= k < |rec.gives| ==> Parse(rec.gives[k]).Some? && Printable(Parse(rec.gives[k]).value))
    && (forall a :: a in n.args ==> PlainArg(n.args[a].text))
  }

  lemma {:induction false} FilledPrints(name: string, slots: seq<string>, values: map<string, Value>,
                                        args: seq<string>)
    requires Filled(args, slots, values) && Printable(Atom(name, slots))
    requires forall a :: a in values ==> PlainArg(values[a].text)
    ensures Printable(Atom(name, args))
  {
    forall j | 0 <= j < |args|
      ensures PlainArg(args[j])
    {
      assert PlainArg(slots[j]);
    }
  }

  lemma {:induction false} FilledValues(slots: seq<string>, values: map<string, Value>, args: seq<string>, v: string)
    requires Filled(args, slots, values)
    ensures v in args <==> exists j :: 0 <= j < |slots| && v == ValueAt(slots[j], values)
  {
    assert forall j :: 0 <= j < |slots| ==> args[j] == ValueAt(slots[j], values);
  }

  lemma {:induction false} FilledMentions(text: string, ref: Ref, values: map<string, Value>, v: string)
    requires Fills(text, ref, values) && Printable(Parse(ref).value)
    requires forall a :: a in values ==> PlainArg(values[a].text)
    ensures ParseText(text).Some? && (v in ParseText(text).value.args <==> MentionedIn(ref, values, v))
  {
    var slots, name := Parse(ref).value.args, Parse(ref).value.name;
    var args :| Filled(args, slots, values) && text == Print(Atom(name, args));
    FilledPrints(name, slots, values, args);
    RoundTrip(Atom(name, args));
    FilledValues(slots, values, args, v);
  }

  lemma {:induction false} EffectsMention(n: Node, rec: Record, texts: seq<string>, v: string)
    requires AllFill(texts, rec.gives, n.args) && PlainEffects(n, rec)
    ensures forall k :: 0 <= k < |texts| ==> ParseText(texts[k]).Some?
    ensures (exists k :: 0 <= k < |texts| && v in ParseText(texts[k]).value.args) <==> Mentions(n, rec, v)
  {
    forall k | 0 <= k < |texts|
      ensures ParseText(texts[k]).Some?
      ensures v in ParseText(texts[k]).value.args <==> MentionedIn(rec.gives[k], n.args, v)
    {
      FilledMentions(texts[k], rec.gives[k], n.args, v);
    }
  }

  /** With plain values and effects that print, an object counts as produced exactly
      when an ancestor's record mentions it among the effects, by name or in a slot. */
  lemma {:induction false} ProducedExactly(nodes: seq<Node>, records: Records, anc: Table, id: string, v: string)
    requires UniqueIds(nodes) && SkillsKnown(nodes, records) && ContractsParse(nodes, records) && id in anc
    requires forall i :: 0 <= i < |nodes| ==> PlainEffects(nodes[i], records[nodes[i].skill])
    ensures Readable(anc, StepsOf(nodes, records), id)
    ensures Produced(anc, StepsOf(nodes, records), id, v) <==>
      exists i :: 0 <= i < |nodes| && nodes[i].id in anc[id] && Mentions(nodes[i], records[nodes[i].skill], v)
  {
    var steps := StepsOf(nodes, records);
    forall i | 0 <= i < |nodes|
      ensures nodes[i].id in steps
      ensures forall k :: 0 <= k < |steps[nodes[i].id].ens| ==> ParseText(steps[nodes[i].id].ens[k]).Some?
      ensures (exists k :: 0 <= k < |steps[nodes[i].id].ens| && v in ParseText(steps[nodes[i].id].ens[k]).value.args)
              <==> Mentions(nodes[i], records[nodes[i].skill], v)
    {
      GraphContracts(nodes, records, i);
      EffectsMention(nodes[i], records[nodes[i].skill], steps[nodes[i].id].ens, v);
    }
    assert forall m :: m in steps ==> exists i :: 0 <= i < |nodes| && nodes[i].id == m;
  }

  // --------------------------------------------- legality of one node with a slot

  /** A node with one entity argument `v` in the slot, whose skill requires
      `needed(slot)` and `free()`, ensures `held(slot)` and clobbers `free()`. */
  datatype Grasp = Grasp(id: string, task: string, skill: string, slot: string, needed: string, free: string,
                         held: string)

  predicate WellNamed(w: Grasp) {
    PlainArg(w.slot) && IsIdentifier(w.needed) && IsIdentifier(w.free) && IsIdentifier(w.held)
  }

  function GraspRecord(w: Grasp): (r: Record) {
    Record(w.skill, map[w.slot := "entity"], [Text(w.needed + "(" + w.slot + ")"), Text(w.free + "()")],
           [Text(w.held + "(" + w.slot + ")")], [Text(w.free + "()")], {})
  }

  function GraspGraph(w: Grasp, v: string): (r: ExecutionGraph) {
    ExecutionGraph([Task(w.task, [w.held + "(" + v + ")"])],
                   [Node(w.id, w.task, w.skill, map[w.slot := Value(StrType, v)], [], None, "manipulate")])
  }

  function GraspStep(w: Grasp, v: string): (r: Step) {
    Step([w.needed + "(" + v + ")", w.free + "()"], [w.held + "(" + v + ")"], {w.free + "()"})
  }

  lemma {:induction false} SlotText(name: string, slot: string)
    requires IsIdentifier(name) && PlainArg(slot)
    ensures Parse(Text(name + "(" + slot + ")")) == Some(Atom(name, [slot]))
  {
    RoundTrip(Atom(name, [slot]));
  }

  lemma {:induction false} EmptyText(name: string)
    requires IsIdentifier(name)
    ensures Parse(Text(name + "()")) == Some(Atom(name, []))
  {
    RoundTrip(Atom(name, []));
    assert Print(Atom(name, [])) == name + "()";
  }

  lemma {:induction false} SlotFilled(ref: Ref, name: string, slot: string, v: string, n: Node)
    requires Parse(ref) == Some(Atom(name, [slot])) && n.args == map[slot := Value(StrType, v)]
    ensures Instantiate(ref, Env(n)) == Some(name + "(" + v + ")")
  {
    InstanceFills(ref, n);
    var a :| Filled(a, [slot], n.args) && Instantiate(ref, Env(n)) == Some(Print(Atom(name, a)));
    assert a == [v];
  }

  lemma {:induction false} NothingFilled(ref: Ref, name: string, n: Node)
    requires Parse(ref) == Some(Atom(name, []))
    ensures Instantiate(ref, Env(n)) == Some(name + "()")
  {
    InstanceFills(ref, n);
    var a :| Filled(a, [], n.args) && Instantiate(ref, Env(n)) == Some(Print(Atom(name, a)));
    assert a == [] && Print(Atom(name, [])) == name + "()";
  }

  lemma {:induction false} InstantiateOne(x: Ref, env: map<string, string>)
    requires Instantiate(x, env).Some?
    ensures InstantiateAll([x], env) == Some([Instantiate(x, env).value])
  {
    assert [x][..0] == [] && [x][0] == x;
    assert InstantiateAll([], env) == Some([]);
    assert [] + [Instantiate(x, env).value] == [Instantiate(x, env).value];
  }

  lemma {:induction false} InstantiateTwo(x: Ref, y: Ref, env: map<string, string>)
    requires Instantiate(x, env).Some? && Instantiate(y, env).Some?
    ensures InstantiateAll([x, y], env) == Some([Instantiate(x, env).value, Instantiate(y, env).value])
  {
    InstantiateOne(x, env);
    assert [x, y][..1] == [x];
    assert [Instantiate(x, env).value] + [Instantiate(y, env).value]
        == [Instantiate(x, env).value, Instantiate(y, env).value];
  }

  lemma {:induction false} GraspFills(w: Grasp, v: string, n: Node)
    requires WellNamed(w) && n.args == map[w.slot := Value(StrType, v)]
    ensures Instantiate(Text(w.needed + "(" + w.slot + ")"), Env(n)) == Some(w.needed + "(" + v + ")")
    ensures Instantiate(Text(w.free + "()"), Env(n)) == Some(w.free + "()")
    ensures Instantiate(Text(w.held + "(" + w.slot + ")"), Env(n)) == Some(w.held + "(" + v + ")")
  {
    SlotText(w.needed, w.slot);
    EmptyText(w.free);
    SlotText(w.held, w.slot);
    SlotFilled(Text(w.needed + "(" + w.slot + ")"), w.needed, w.slot, v, n);
    NothingFilled(Text(w.free + "()"), w.free, n);
    SlotFilled(Text(w.held + "(" + w.slot + ")"), w.held, w.slot, v, n);
  }

  lemma {:induction false} GraspContract(w: Grasp, v: string, n: Node)
    requires WellNamed(w) && n.args == map[w.slot := Value(StrType, v)]
    ensures StepOf(n, GraspRecord(w)) == Some(GraspStep(w, v))
  {
    var rec := GraspRecord(w);
    GraspFills(w, v, n);
    InstantiateTwo(rec.needs[0], rec.needs[1], Env(n));
    InstantiateOne(rec.gives[0], Env(n));
    InstantiateOne(rec.clobbers[0], Env(n));
    assert Elements([w.free + "()"]) == {w.free + "()"};
  }

  lemma {:induction false} OneNodeSteps(n: Node, rec: Record, step: Step)
    requires n.after == [] && StepOf(n, rec) == Some(step)
    ensures SkillsKnown([n], map[n.skill := rec]) && ContractsParse([n], map[n.skill := rec])
    ensures AfterGraph([n]) == map[n.id := []] && StepsOf([n], map[n.skill := rec]) == map[n.id := step]
    ensures MembersOf([n], n.task) == [n.id]
  {
    LegalRuns.OneNodeMap(n);
  }

  /** What the second phase sees of the graph. */
  ghost predicate GraspShape(g: ExecutionGraph, records: Records, anc: Table, steps: Steps, slot: string, v: string,
                             p: string, q: string, h: string) {
    && |g.nodes| == 1 && |g.tasks| == 1
    && var n, t := g.nodes[0], g.tasks[0];
       && t.id == n.task && t.goal == [h] && MembersOf(g.nodes, n.task) == [n.id]
       && n.args == map[slot := Value(StrType, v)] && n.executor == None
       && n.skill in records && records[n.skill].args == map[slot := "entity"]
       && anc == map[n.id := {}] && steps == map[n.id := Step([p, q], [h], {q})]
  }

  lemma {:induction false} AloneSupported(anc: Table, steps: Steps, id: string, facts: State, p: string)
    requires anc == map[id := {}] && steps.Keys == {id}
    ensures Supported(anc, steps, facts, id, p) <==> p in facts
  {
  }

  lemma {:induction false} AloneGrounded(n: Node, rec: Record, anc: Table, steps: Steps, slot: string, v: string,
                                         objects: set<string>)
    requires n.args == map[slot := Value(StrType, v)] && rec.args == map[slot := "entity"] && anc == map[n.id := {}]
    ensures Readable(anc, steps, n.id)
    ensures NodeGrounded(n, rec, anc, steps, objects) <==> v in objects
  {
    assert slot in n.args && rec.args[slot] == "entity" && n.args[slot].text == v;
  }

  lemma {:induction false} GraspRest(g: ExecutionGraph, records: Records, anc: Table, steps: Steps, slot: string,
                                     v: string, p: string, q: string, h: string)
    requires GraspShape(g, records, anc, steps, slot, v, p, q, h)
    ensures SkillsKnown(g.nodes, records) && AllReadable(g, anc, steps)
    ensures AllTyped(g, records) && AllBound(g, records) && AllCovered(g, anc, steps)
  {
    LegalRuns.OneNodeCovers(g.nodes[0].id, anc, steps, h);
    assert TaskCovered(g.tasks[0], g.nodes, anc, steps);
  }

  lemma {:induction false} GraspPhase(g: ExecutionGraph, records: Records, anc: Table, steps: Steps, slot: string,
                                      v: string, p: string, q: string, h: string, facts: State, objects: set<string>)
    requires GraspShape(g, records, anc, steps, slot, v, p, q, h)
    ensures SkillsKnown(g.nodes, records) && AllReadable(g, anc, steps)
    ensures Contracted(g, records, anc, steps, facts, objects) <==> p in facts && q in facts && v in objects
  {
    var n := g.nodes[0];
    AloneSupported(anc, steps, n.id, facts, p);
    AloneSupported(anc, steps, n.id, facts, q);
    GraspRest(g, records, anc, steps, slot, v, p, q, h);
    assert AllSupported(g, anc, steps, facts) <==> p in facts && q in facts by {
      assert steps[n.id].req[0] == p && steps[n.id].req[1] == q;
      assert NodeSupported(n, anc, steps, facts) <==> p in facts && q in facts;
    }
    assert AllGrounded(g, records, anc, steps, objects) <==> v in objects by {
      AloneGrounded(n, records[n.skill], anc, steps, slot, v, objects);
    }
  }

  /** Some fact has this canonical text. */
  predicate FactHolds(facts: seq<Ref>, text: string) {
    exists i :: 0 <= i < |facts| && Canonical(facts[i]) == Some(text)
  }

  lemma {:induction false} FactIn(facts: seq<Ref>, text: string)
    requires FactsParse(facts)
    ensures text in FactSet(facts) <==> FactHolds(facts, text)
  {
  }

  /** The graph of one such node is legal exactly when the initial facts hold
      `needed(v)` and `free()` and `v` is an initial object. */
  lemma {:induction false} GraspIsLegalExactly(w: Grasp, v: string, facts: seq<Ref>, objects: set<string>)
    requires WellNamed(w)
    ensures Legal(GraspGraph(w, v), map[w.skill := GraspRecord(w)], facts, objects) <==>
      && FactsParse(facts) && FactHolds(facts, w.needed + "(" + v + ")") && FactHolds(facts, w.free + "()")
      && v in objects
  {
    var g, records: Records := GraspGraph(w, v), map[w.skill := GraspRecord(w)];
    var p, q, h := w.needed + "(" + v + ")", w.free + "()", w.held + "(" + v + ")";
    GraspContract(w, v, g.nodes[0]);
    OneNodeSteps(g.nodes[0], GraspRecord(w), GraspStep(w, v));
    LegalRuns.OneNodeClosure(w.id);
    assert WellOrdered(g, records);
    if FactsParse(facts) {
      GraspPhase(g, records, map[w.id := {}], map[w.id := GraspStep(w, v)], w.slot, v, p, q, h,
                 FactSet(facts), objects);
      FactIn(facts, p);
      FactIn(facts, q);
    }
  }

  // ---------------------------------------------------------- argument types

  /** The type names of argument schemas. */
  const TYPE_NAMES: set<(string, PyType)> :=
    {("entity", StrType), ("str", StrType), ("int", IntType), ("float", FloatType), ("bool", BoolType)}

  lemma {:induction false} TypesAre(name: string, t: PyType)
    ensures TypeNamed(name) == Some(t) <==> (name, t) in TYPE_NAMES
  {
    assert "entity" != "str" && "int" != "float" && "int" != "bool" && "float" != "bool";
  }

  /** The arguments of a node are typed when they are exactly those of the schema and
      each value has the type that the schema names. */
  lemma {:induction false} TypedExactly(n: Node, rec: Record, tasks: seq<Task>)
    ensures NodeTyped(n, rec, tasks) <==>
      && (exists i :: 0 <= i < |tasks| && tasks[i].id == n.task) && n.args.Keys == rec.args.Keys
      && forall k :: k in n.args && k in rec.args ==> (rec.args[k], n.args[k].pyType) in TYPE_NAMES
  {
    forall k | k in n.args && k in rec.args
      ensures TypeNamed(rec.args[k]) == Some(n.args[k].pyType) <==> (rec.args[k], n.args[k].pyType) in TYPE_NAMES
    {
      TypesAre(rec.args[k], n.args[k].pyType);
    }
  }
}
