/** The kernel of harness/kernel.py: providers are mounted once, every
    resolution is accounted and logged, privileged use is budgeted. */
module Kernel {
  import opened Options
  import opened CanonicalJson
  import opened Ledger
  import Sorting

  datatype Definition = Definition(name: string, contract: string, privileged: bool)

  /** A provider, known by the contracts it is an instance of. */
  datatype Provider = Provider(contracts: set<string>)

  datatype Mounted = Mounted(provider: Provider, ref: string, params: seq<Member>)

  datatype Resolution = Resolution(seqNo: nat, capability: string, providerRef: string, consumer: string,
                                   privileged: bool)

  datatype Error =
    | UnknownCapability(name: string)
    | MissingProvider(name: string)
    | DuplicateProvider(name: string)
    | ContractViolation(ref: string, name: string)
    | PrivilegeViolation(name: string, wouldUse: nat, budget: int)

  datatype Reply<T> = Granted(value: T) | Refused(error: Error)

  datatype Event = Event(kind: string, data: Json)

  datatype Config = Config(defs: map<string, Definition>, budget: Option<int>, logged: bool)

  /** What the kernel keeps, with the events it has logged. */
  datatype State = State(providers: map<string, Mounted>, resolutions: seq<Resolution>, used: set<string>,
                         events: seq<Event>)

  datatype Op =
    | Provide(name: string, provider: Provider, ref: string, params: seq<Member>)
    | Resolve(name: string, consumer: string)
    | Note(kind: string, data: Json)

  const PROVIDED := "capability.provide"
  const RESOLVED := "capability.resolve"

  predicate MemberLe(a: Member, b: Member) {
    Sorting.TextLe(a.key, b.key)
  }

  function ProvideData(name: string, ref: string, params: seq<Member>, privileged: bool): (r: Json) {
    JObject([Member("capability", JString(name)), Member("ref", JString(ref)),
             Member("params", JObject(Sorting.Sort(params, MemberLe))), Member("privileged", JBool(privileged))])
  }

  function ResolveData(r: Resolution): (j: Json) {
    JObject([Member("capability", JString(r.capability)), Member("ref", JString(r.providerRef)),
             Member("consumer", JString(r.consumer)), Member("privileged", JBool(r.privileged))])
  }

  // ------------------------------------------------------- the specification

  /** The check that refuses an operation, if one does. */
  function Refusal(cfg: Config, s: State, op: Op): (r: Option<Error>) {
    match op
    case Provide(name, provider, ref, _) =>
      if name !in cfg.defs then Some(UnknownCapability(name))
      else if name in s.providers then Some(DuplicateProvider(name))
      else if cfg.defs[name].contract !in provider.contracts then Some(ContractViolation(ref, name))
      else None
    case Resolve(name, _) =>
      if name !in cfg.defs then Some(UnknownCapability(name))
      else if name !in s.providers then Some(MissingProvider(name))
      else if cfg.defs[name].privileged && cfg.budget.Some? && |s.used + {name}| > cfg.budget.value
      then Some(PrivilegeViolation(name, |s.used + {name}|, cfg.budget.value))
      else None
    case Note(_, _) => None
  }

  function Log(cfg: Config, s: State, e: Event): (r: State) {
    if cfg.logged then s.(events := s.events + [e]) else s
  }

  function Recorded(s: State, record: Resolution): (r: State) {
    s.(used := if record.privileged then s.used + {record.capability} else s.used,
       resolutions := s.resolutions + [record])
  }

  function Apply(cfg: Config, s: State, op: Op): (r: State) {
    if Refusal(cfg, s, op).Some? then s
    else
      match op
      case Provide(name, provider, ref, params) =>
        Log(cfg, s.(providers := s.providers[name := Mounted(provider, ref, params)]),
            Event(PROVIDED, ProvideData(name, ref, params, cfg.defs[name].privileged)))
      case Resolve(name, consumer) =>
        var record := Resolution(|s.resolutions|, name, s.providers[name].ref, consumer, cfg.defs[name].privileged);
        Log(cfg, Recorded(s, record), Event(RESOLVED, ResolveData(record)))
      case Note(kind, data) => Log(cfg, s, Event(kind, data))
  }

  // ------------------------------------------------------------ the kernel

  class Kernel {
    const cfg: Config
    const log: SessionLog?
    var providers: map<string, Mounted>
    var resolutions: seq<Resolution>
    var privilegedUsed: set<string>
    ghost const base: nat   // rows in the log when it was attached

    ghost predicate Attached()
      reads this, log
    {
      && cfg.logged == (log != null)
      && (log != null ==> base <= |log.rows|)
    }

    ghost function Abstract(): State
      reads this, log
      requires Attached()
    {
      State(providers, resolutions, privilegedUsed, if log == null then [] else EventsOf(log.rows[base..]))
    }

    /** The attached ledger verifies and its chain is the one its rows commit to. */
    ghost predicate Sealed()
      reads this, log
    {
      log != null ==> Verifies(log.codec, log.rows) && log.chain == ChainOf(log.codec, log.rows)
    }

    constructor (definitions: map<string, Definition>, sessionLog: SessionLog?, budget: Option<int>)
      ensures cfg == Config(definitions, budget, sessionLog != null) && log == sessionLog
      ensures Attached() && Abstract() == State(map[], [], {}, [])
    {
      cfg := Config(definitions, budget, sessionLog != null);
      log := sessionLog;
      base := if sessionLog == null then 0 else |sessionLog.rows|;
      providers, resolutions, privilegedUsed := map[], [], {};
      new;
      if log != null {
        assert log.rows[base..] == [];
      }
    }

    method AppendEvent(kind: string, data: Json)
      requires Attached()
      modifies log
      ensures Attached() && (old(Sealed()) ==> Sealed())
      ensures Abstract() == Log(cfg, old(Abstract()), Event(kind, data))
    {
      if log != null {
        ghost var before := log.rows;
        var n := log.Append(kind, data);
        assert log.rows[base..] == before[base..] + [log.rows[|before|]];
        EventsSnoc(before[base..], log.rows[|before|]);
      }
    }

    method Provide(name: string, provider: Provider, ref: string, params: seq<Member>)
      returns (r: Reply<()>)
      requires Attached()
      modifies this, log
      ensures Attached() && (old(Sealed()) ==> Sealed())
      ensures Abstract() == Apply(cfg, old(Abstract()), Op.Provide(name, provider, ref, params))
      ensures r == match Refusal(cfg, old(Abstract()), Op.Provide(name, provider, ref, params))
                   case Some(e) => Refused(e)
                   case None => Granted(())
      ensures r.Refused? && log != null ==> log.rows == old(log.rows) && log.chain == old(log.chain)
    {
      if name !in cfg.defs {
        return Refused(UnknownCapability(name));
      }
      if name in providers {
        return Refused(DuplicateProvider(name));
      }
      if cfg.defs[name].contract !in provider.contracts {
        return Refused(ContractViolation(ref, name));
      }
      providers := providers[name := Mounted(provider, ref, params)];
      AppendEvent(PROVIDED, ProvideData(name, ref, params, cfg.defs[name].privileged));
      return Granted(());
    }

    method Resolve(name: string, consumer: string) returns (r: Reply<Provider>)
      requires Attached()
      modifies this, log
      ensures Attached() && (old(Sealed()) ==> Sealed())
      ensures Abstract() == Apply(cfg, old(Abstract()), Op.Resolve(name, consumer))
      ensures match Refusal(cfg, old(Abstract()), Op.Resolve(name, consumer))
              case Some(e) => r == Refused(e)
              case None => name in old(providers) && r == Granted(old(providers)[name].provider)
      ensures r.Refused? && log != null ==> log.rows == old(log.rows) && log.chain == old(log.chain)
    {
      if name !in cfg.defs {
        return Refused(UnknownCapability(name));
      }
      if name !in providers {
        return Refused(MissingProvider(name));
      }
      var mounted, privileged := providers[name], cfg.defs[name].privileged;
      if privileged {
        var wouldUse := privilegedUsed + {name};
        if cfg.budget.Some? && |wouldUse| > cfg.budget.value {
          return Refused(PrivilegeViolation(name, |wouldUse|, cfg.budget.value));
        }
        privilegedUsed := wouldUse;
      }
      var record := Resolution(|resolutions|, name, mounted.ref, consumer, privileged);
      resolutions := resolutions + [record];
      AppendEvent(RESOLVED, ResolveData(record));
      return Granted(mounted.provider);
    }

    method Note(kind: string, data: Json)
      requires Attached()
      modifies log
      ensures Attached() && (old(Sealed()) ==> Sealed())
      ensures Abstract() == Apply(cfg, old(Abstract()), Op.Note(kind, data))
    {
      AppendEvent(kind, data);
    }
  }

  function EventsOf(rows: seq<Row>): (r: seq<Event>) {
    if rows == [] then [] else EventsOf(rows[..|rows| - 1]) + [Event(rows[|rows| - 1].kind, rows[|rows| - 1].data)]
  }

  lemma {:induction false} EventsSnoc(rows: seq<Row>, row: Row)
    ensures EventsOf(rows + [row]) == EventsOf(rows) + [Event(row.kind, row.data)]
  {
    assert (rows + [row])[..|rows|] == rows;
  }

  // ---------------------------------------------------------- over whole runs

  function Run(cfg: Config, ops: seq<Op>): (s: State) {
    if ops == [] then State(map[], [], {}, []) else Apply(cfg, Run(cfg, ops[..|ops| - 1]), ops[|ops| - 1])
  }

  /** The privileged names among the recorded resolutions. */
  function PrivilegedNames(rs: seq<Resolution>): (r: set<string>) {
    if rs == [] then {}
    else
      var last := rs[|rs| - 1];
      PrivilegedNames(rs[..|rs| - 1]) + if last.privileged then {last.capability} else {}
  }

  ghost predicate Accounted(cfg: Config, s: State) {
    && s.used == PrivilegedNames(s.resolutions)
    && (cfg.budget.Some? ==> s.used == {} || |s.used| <= cfg.budget.value)
    && (forall i :: 0 <= i < |s.resolutions| ==> s.resolutions[i].seqNo == i && Backed(cfg, s, s.resolutions[i]))
    && (forall name :: name in s.providers ==>
          name in cfg.defs && cfg.defs[name].contract in s.providers[name].provider.contracts)
  }

  /** The record names a mounted provider, its ref and the definition's privilege. */
  predicate Backed(cfg: Config, s: State, r: Resolution) {
    && r.capability in cfg.defs && r.privileged == cfg.defs[r.capability].privileged
    && r.capability in s.providers && r.providerRef == s.providers[r.capability].ref
  }

  lemma {:induction false} LogKeepsAccounts(cfg: Config, s: State, e: Event)
    requires Accounted(cfg, s)
    ensures Accounted(cfg, Log(cfg, s, e))
  {
    assert forall i :: 0 <= i < |s.resolutions| ==> Backed(cfg, Log(cfg, s, e), s.resolutions[i]);
  }

  lemma {:induction false} RecordKeepsAccounts(cfg: Config, s: State, record: Resolution)
    requires Accounted(cfg, s) && record.seqNo == |s.resolutions| && Backed(cfg, s, record)
    requires record.privileged && cfg.budget.Some? ==> |s.used + {record.capability}| <= cfg.budget.value
    ensures Accounted(cfg, Recorded(s, record))
  {
    var t := Recorded(s, record);
    assert t.resolutions[..|t.resolutions| - 1] == s.resolutions;
    forall i | 0 <= i < |t.resolutions|
      ensures t.resolutions[i].seqNo == i && Backed(cfg, t, t.resolutions[i])
    {
      if i < |s.resolutions| {
        assert Backed(cfg, s, s.resolutions[i]);
      }
    }
  }

  lemma {:induction false} ResolveRecords(cfg: Config, s: State, name: string, consumer: string)
    returns (record: Resolution, e: Event)
    requires Refusal(cfg, s, Resolve(name, consumer)).None?
    ensures record.seqNo == |s.resolutions| && Backed(cfg, s, record)
    ensures record.privileged && cfg.budget.Some? ==> |s.used + {record.capability}| <= cfg.budget.value
    ensures Apply(cfg, s, Resolve(name, consumer)) == Log(cfg, Recorded(s, record), e)
  {
    record := Resolution(|s.resolutions|, name, s.providers[name].ref, consumer, cfg.defs[name].privileged);
    e := Event(RESOLVED, ResolveData(record));
  }

  lemma {:induction false} ResolveKeepsAccounts(cfg: Config, s: State, name: string, consumer: string)
    requires Accounted(cfg, s) && Refusal(cfg, s, Resolve(name, consumer)).None?
    ensures Accounted(cfg, Apply(cfg, s, Resolve(name, consumer)))
  {
    var record, e := ResolveRecords(cfg, s, name, consumer);
    RecordKeepsAccounts(cfg, s, record);
    LogKeepsAccounts(cfg, Recorded(s, record), e);
  }

  lemma {:induction false} ProvideKeepsAccounts(cfg: Config, s: State, op: Op)
    requires Accounted(cfg, s) && op.Provide? && Refusal(cfg, s, op).None?
    ensures Accounted(cfg, Apply(cfg, s, op))
  {
    var t := Apply(cfg, s, op);
    forall i | 0 <= i < |s.resolutions|
      ensures Backed(cfg, t, s.resolutions[i])
    {
      assert Backed(cfg, s, s.resolutions[i]);
    }
  }

  lemma {:induction false} ApplyKeepsAccounts(cfg: Config, s: State, op: Op)
    requires Accounted(cfg, s)
    ensures Accounted(cfg, Apply(cfg, s, op))
  {
    if Refusal(cfg, s, op).None? {
      match op
      case Provide(_, _, _, _) => ProvideKeepsAccounts(cfg, s, op);
      case Resolve(name, consumer) => ResolveKeepsAccounts(cfg, s, name, consumer);
      case Note(kind, data) => LogKeepsAccounts(cfg, s, Event(kind, data));
    }
  }

  /** Every run keeps the accounts: exact privileged set, within budget, dense
      sequence numbers, every record backed by its mounted provider. */
  lemma {:induction false} RunsKeepAccounts(cfg: Config, ops: seq<Op>)
    ensures Accounted(cfg, Run(cfg, ops))
  {
    if ops != [] {
      RunsKeepAccounts(cfg, ops[..|ops| - 1]);
      ApplyKeepsAccounts(cfg, Run(cfg, ops[..|ops| - 1]), ops[|ops| - 1]);
    }
  }

  /** The data of the logged resolve rows, in order. */
  function ResolveRows(events: seq<Event>): (r: seq<Json>) {
    if events == [] then []
    else
      var last := events[|events| - 1];
      ResolveRows(events[..|events| - 1]) + if last.kind == RESOLVED then [last.data] else []
  }

  function Records(rs: seq<Resolution>): (r: seq<Json>)
    ensures |r| == |rs|
  {
    if rs == [] then [] else Records(rs[..|rs| - 1]) + [ResolveData(rs[|rs| - 1])]
  }

  predicate InStep(s: State) {
    ResolveRows(s.events) == Records(s.resolutions)
  }

  /** On a logged kernel, one operation keeps the resolve rows in step with the
      resolutions exactly when it is not a note posing as a resolution. */
  lemma {:induction false} ApplyKeepsStep(cfg: Config, s: State, op: Op)
    requires cfg.logged && InStep(s)
    ensures InStep(Apply(cfg, s, op)) <==> !(op.Note? && op.kind == RESOLVED)
  {
    var t := Apply(cfg, s, op);
    if Refusal(cfg, s, op).None? {
      assert t.events[..|s.events|] == s.events;
      if op.Resolve? {
        assert t.resolutions[..|s.resolutions|] == s.resolutions;
      }
      if op.Note? && op.kind == RESOLVED {
        assert |ResolveRows(t.events)| == |Records(t.resolutions)| + 1;
      }
    }
  }

  lemma {:induction false} RunsStayInStep(cfg: Config, ops: seq<Op>)
    requires cfg.logged && forall i :: 0 <= i < |ops| ==> !(ops[i].Note? && ops[i].kind == RESOLVED)
    ensures InStep(Run(cfg, ops))
  {
    if ops != [] {
      RunsStayInStep(cfg, ops[..|ops| - 1]);
      ApplyKeepsStep(cfg, Run(cfg, ops[..|ops| - 1]), ops[|ops| - 1]);
    }
  }

  /** A privileged name already used is never refused for the budget. */
  lemma {:induction false} UsedIsNeverRefusedAgain(cfg: Config, ops: seq<Op>, name: string, consumer: string)
    requires name in Run(cfg, ops).used
    ensures Refusal(cfg, Run(cfg, ops), Resolve(name, consumer)).None?
  {
    var s := Run(cfg, ops);
    RunsKeepAccounts(cfg, ops);
    UsedIsRecorded(cfg, s, s.resolutions, name);
    assert s.used + {name} == s.used;
  }

  lemma {:induction false} UsedIsRecorded(cfg: Config, s: State, rs: seq<Resolution>, name: string)
    requires name in PrivilegedNames(rs) && forall i :: 0 <= i < |rs| ==> Backed(cfg, s, rs[i])
    ensures name in cfg.defs && name in s.providers
  {
    if rs[|rs| - 1].capability != name {
      UsedIsRecorded(cfg, s, rs[..|rs| - 1], name);
    }
  }

  // ------------------------------------------------------- what the rows say

  /** The row is the dict of exactly these four fields. */
  predicate TellsResolution(j: Json, r: Resolution) {
    j.JObject? && multiset(j.members) == multiset{
      Member("capability", JString(r.capability)), Member("ref", JString(r.providerRef)),
      Member("consumer", JString(r.consumer)), Member("privileged", JBool(r.privileged))}
  }

  /** The dict among the fields, if there is one. */
  function DictIn(fields: seq<Member>): (r: seq<Member>) {
    if fields == [] then []
    else if fields[0].value.JObject? then fields[0].value.members
    else DictIn(fields[1..])
  }

  /** The row is the dict of capability, ref and privilege, and of the mounted params
      sorted by key. */
  predicate TellsMount(j: Json, name: string, m: Mounted, privileged: bool) {
    && j.JObject? && multiset(DictIn(j.members)) == multiset(m.params) && Sorting.SortedBy(DictIn(j.members), MemberLe)
    && multiset(j.members) == multiset{
         Member("capability", JString(name)), Member("ref", JString(m.ref)),
         Member("params", JObject(DictIn(j.members))), Member("privileged", JBool(privileged))}
  }

  lemma {:induction false} ResolveDataTells(r: Resolution)
    ensures TellsResolution(ResolveData(r), r)
  {
  }

  lemma {:induction false} MemberOrder()
    ensures Sorting.TotalPreorder(MemberLe)
  {
    forall a: Member, b: Member
      ensures MemberLe(a, b) || MemberLe(b, a)
    {
      Sorting.TextLeTotal(a.key, b.key);
    }
    forall a: Member, b: Member, c: Member | MemberLe(a, b) && MemberLe(b, c)
      ensures MemberLe(a, c)
    {
      Sorting.TextLeTransitive(a.key, b.key, c.key);
    }
  }

  lemma {:induction false} ProvideDataTells(name: string, m: Mounted, privileged: bool)
    ensures TellsMount(ProvideData(name, m.ref, m.params, privileged), name, m, privileged)
  {
    var j := ProvideData(name, m.ref, m.params, privileged);
    MemberOrder();
    Sorting.SortCorrect(m.params, MemberLe);
    assert j.members[1..][1..][0].value == JObject(Sorting.Sort(m.params, MemberLe));
    assert DictIn(j.members) == DictIn(j.members[1..]) == DictIn(j.members[1..][1..])
        == Sorting.Sort(m.params, MemberLe);
  }

  lemma {:induction false} RecordsTell(rs: seq<Resolution>, i: nat)
    requires i < |rs|
    ensures TellsResolution(Records(rs)[i], rs[i])
  {
    if i == |rs| - 1 {
      ResolveDataTells(rs[i]);
    } else {
      RecordsTell(rs[..|rs| - 1], i);
    }
  }

  /** On a logged kernel without notes posing as resolutions, the i-th resolve row
      tells the i-th resolution. */
  lemma {:induction false} ResolveRowsTell(cfg: Config, ops: seq<Op>, i: nat)
    requires cfg.logged && forall k :: 0 <= k < |ops| ==> !(ops[k].Note? && ops[k].kind == RESOLVED)
    requires i < |Run(cfg, ops).resolutions|
    ensures |ResolveRows(Run(cfg, ops).events)| == |Run(cfg, ops).resolutions|
    ensures TellsResolution(ResolveRows(Run(cfg, ops).events)[i], Run(cfg, ops).resolutions[i])
  {
    RunsStayInStep(cfg, ops);
    RecordsTell(Run(cfg, ops).resolutions, i);
  }

  /** The data of the logged mount rows, in order. */
  function ProvideRows(events: seq<Event>): (r: seq<Json>) {
    if events == [] then []
    else
      var last := events[|events| - 1];
      ProvideRows(events[..|events| - 1]) + if last.kind == PROVIDED then [last.data] else []
  }

  lemma {:induction false} ProvideRowsSnoc(events: seq<Event>, e: Event)
    ensures ProvideRows(events + [e]) == ProvideRows(events) + if e.kind == PROVIDED then [e.data] else []
  {
    assert (events + [e])[..|events|] == events;
  }

  /** The names of all providers, each once. */
  predicate NamesAll(providers: map<string, Mounted>, names: seq<string>) {
    && (forall i, k :: 0 <= i < k < |names| ==> names[i] != names[k])
    && (forall name :: name in providers ==> name in names) && forall name :: name in names ==> name in providers
  }

  predicate RowTells(cfg: Config, row: Json, providers: map<string, Mounted>, name: string) {
    name in cfg.defs && name in providers && TellsMount(row, name, providers[name], cfg.defs[name].privileged)
  }

  predicate RowsTell(cfg: Config, rows: seq<Json>, providers: map<string, Mounted>, names: seq<string>) {
    |rows| == |names| && forall i :: 0 <= i < |names| ==> RowTells(cfg, rows[i], providers, names[i])
  }

  lemma {:induction false} RowsGrow(cfg: Config, rows: seq<Json>, providers: map<string, Mounted>, names: seq<string>,
                                    name: string, m: Mounted)
    requires RowsTell(cfg, rows, providers, names) && name !in providers && name in cfg.defs
    ensures RowsTell(cfg, rows + [ProvideData(name, m.ref, m.params, cfg.defs[name].privileged)],
                     providers[name := m], names + [name])
  {
    ProvideDataTells(name, m, cfg.defs[name].privileged);
    var row := ProvideData(name, m.ref, m.params, cfg.defs[name].privileged);
    forall i | 0 <= i < |names| + 1
      ensures RowTells(cfg, (rows + [row])[i], providers[name := m], (names + [name])[i])
    {
      if i < |names| {
        assert RowTells(cfg, rows[i], providers, names[i]);
      }
    }
  }

  /** The i-th row tells the mount of the i-th name, and the names are the mounted ones. */
  predicate MountsTold(cfg: Config, rows: seq<Json>, providers: map<string, Mounted>, names: seq<string>) {
    NamesAll(providers, names) && RowsTell(cfg, rows, providers, names)
  }

  lemma {:induction false} MountAdds(cfg: Config, rows: seq<Json>, providers: map<string, Mounted>, names: seq<string>,
                                     name: string, m: Mounted)
    requires MountsTold(cfg, rows, providers, names) && name !in providers && name in cfg.defs
    ensures MountsTold(cfg, rows + [ProvideData(name, m.ref, m.params, cfg.defs[name].privileged)],
                       providers[name := m], names + [name])
  {
    RowsGrow(cfg, rows, providers, names, name, m);
  }

  /** On a logged kernel without notes posing as mounts, there is one mount row per
      provider, and it tells the provider's capability, ref, params and privilege. */
  lemma {:induction false} MountRowsTell(cfg: Config, ops: seq<Op>) returns (names: seq<string>)
    requires cfg.logged && forall k :: 0 <= k < |ops| ==> !(ops[k].Note? && ops[k].kind == PROVIDED)
    ensures MountsTold(cfg, ProvideRows(Run(cfg, ops).events), Run(cfg, ops).providers, names)
  {
    names := [];
    if ops != [] {
      names := MountRowsTell(cfg, ops[..|ops| - 1]);
      names := ApplyTells(cfg, Run(cfg, ops[..|ops| - 1]), ops[|ops| - 1], names);
    }
  }

  lemma {:induction false} ApplyTells(cfg: Config, s: State, op: Op, names: seq<string>) returns (more: seq<string>)
    requires cfg.logged && !(op.Note? && op.kind == PROVIDED)
    requires MountsTold(cfg, ProvideRows(s.events), s.providers, names)
    ensures MountsTold(cfg, ProvideRows(Apply(cfg, s, op).events), Apply(cfg, s, op).providers, more)
  {
    more := names;
    if Refusal(cfg, s, op).None? {
      var rows, t := ProvideRows(s.events), Apply(cfg, s, op);
      var e := Logged(cfg, s, op);
      ProvideRowsSnoc(s.events, e);
      if op.Provide? {
        MountAdds(cfg, rows, s.providers, names, op.name, Mounted(op.provider, op.ref, op.params));
        more := names + [op.name];
        assert ProvideRows(t.events) == rows + [e.data];
      } else {
        assert ProvideRows(t.events) == rows && t.providers == s.providers;
      }
    }
  }

  lemma {:induction false} Logged(cfg: Config, s: State, op: Op) returns (e: Event)
    requires cfg.logged && Refusal(cfg, s, op).None?
    ensures Apply(cfg, s, op).events == s.events + [e]
    ensures op.Provide? ==>
      e == Event(PROVIDED, ProvideData(op.name, op.ref, op.params, cfg.defs[op.name].privileged))
      && Apply(cfg, s, op).providers == s.providers[op.name := Mounted(op.provider, op.ref, op.params)]
    ensures !op.Provide? ==> Apply(cfg, s, op).providers == s.providers
    ensures op.Resolve? ==> e.kind == RESOLVED
    ensures op.Note? ==> e == Event(op.kind, op.data)
  {
    e := Apply(cfg, s, op).events[|s.events|];
  }

  /** The rows of other kinds. */
  function OtherRows(events: seq<Event>): (r: seq<Event>) {
    if events == [] then []
    else
      var last := events[|events| - 1];
      OtherRows(events[..|events| - 1]) + if last.kind != PROVIDED && last.kind != RESOLVED then [last] else []
  }

  function NotesOf(ops: seq<Op>): (r: seq<Event>) {
    if ops == [] then []
    else
      var last := ops[|ops| - 1];
      NotesOf(ops[..|ops| - 1]) + if last.Note? then [Event(last.kind, last.data)] else []
  }

  /** On a logged kernel, the rows of other kinds are the notes, in order. */
  lemma {:induction false} NotesAreLogged(cfg: Config, ops: seq<Op>)
    requires cfg.logged
    requires forall k :: 0 <= k < |ops| ==> ops[k].Note? ==> ops[k].kind != PROVIDED && ops[k].kind != RESOLVED
    ensures OtherRows(Run(cfg, ops).events) == NotesOf(ops)
  {
    if ops != [] {
      var s, op := Run(cfg, ops[..|ops| - 1]), ops[|ops| - 1];
      NotesAreLogged(cfg, ops[..|ops| - 1]);
      var t := Apply(cfg, s, op);
      if Refusal(cfg, s, op).None? {
        assert t.events[..|s.events|] == s.events;
      }
    }
  }

  /** Without a log nothing is recorded as logged. */
  lemma {:induction false} UnloggedRunsSayNothing(cfg: Config, ops: seq<Op>)
    requires !cfg.logged
    ensures Run(cfg, ops).events == []
  {
    if ops != [] {
      UnloggedRunsSayNothing(cfg, ops[..|ops| - 1]);
    }
  }
}
