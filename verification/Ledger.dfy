/** The hash-chained session log of harness/events.py. SHA-256 is a parameter: a
    digest is 64 characters, and nothing else is assumed of the hash, so what
    would need injectivity is stated as: or here are two different texts with one
    digest. */
module Ledger {
  import opened Options
  import opened CanonicalJson

  const DIGEST := 64
  const SEED := "harness-session-v1"

  /** `_sha`, an arbitrary hash with digests of one length. */
  datatype Codec = Codec(sha: string -> string)

  ghost predicate ValidCodec(c: Codec) {
    forall s :: |c.sha(s)| == DIGEST
  }

  datatype Row = Row(seqNo: nat, kind: string, data: Json, sha: string, chain: string)

  /** `chain_start(_SEED)`. */
  function Start(c: Codec): (r: string) {
    c.sha(SEED)
  }

  /** `chain_step(previous, kind, sha)`: the digest of "previous:kind:sha". */
  function StepText(previous: string, kind: string, sha: string): (r: string) {
    previous + ":" + kind + ":" + sha
  }

  function ChainStep(c: Codec, previous: string, kind: string, sha: string): (r: string) {
    c.sha(StepText(previous, kind, sha))
  }

  /** The chain value that the rows' kinds and data commit to. */
  function ChainOf(c: Codec, rows: seq<Row>): (r: string) {
    if rows == [] then Start(c)
    else
      var last := rows[|rows| - 1];
      ChainStep(c, ChainOf(c, rows[..|rows| - 1]), last.kind, c.sha(Canonical(last.data)))
  }

  /** What `verify` recomputes, row by row. */
  predicate Verifies(c: Codec, rows: seq<Row>) {
    if rows == [] then true
    else
      var last := rows[|rows| - 1];
      && Verifies(c, rows[..|rows| - 1])
      && last.sha == c.sha(Canonical(last.data))
      && last.chain == ChainOf(c, rows)
  }

  lemma {:induction false} VerifiesPrefix(c: Codec, rows: seq<Row>, k: nat)
    requires Verifies(c, rows) && k <= |rows|
    ensures Verifies(c, rows[..k])
  {
    if k < |rows| {
      VerifiesPrefix(c, rows[..|rows| - 1], k);
      assert rows[..|rows| - 1][..k] == rows[..k];
    } else {
      assert rows[..k] == rows;
    }
  }

  // --------------------------------------------------------- the log itself

  class SessionLog {
    const codec: Codec
    var rows: seq<Row>
    var chain: string
    var mirror: Option<seq<Row>>   // the rows written to rows.jsonl, if there is a directory

    /** `SessionLog(root)` on no directory or on one that holds no ledger. */
    constructor (c: Codec, mirrored: bool)
      ensures codec == c && rows == [] && chain == Start(c)
      ensures mirror == if mirrored then Some([]) else None
      ensures Verifies(codec, rows) && chain == ChainOf(codec, rows)
    {
      codec := c;
      rows := [];
      chain := Start(c);
      mirror := if mirrored then Some([]) else None;
    }

    /** `SessionLog.load`: the rows of the file are replayed as they read back,
        and the chain continues from the last stored value. */
    constructor Load(c: Codec, file: seq<Row>)
      ensures codec == c && rows == Reloaded(c, file) && mirror == Some(file)
      ensures chain == EndChain(c, rows)
      ensures Verifies(c, rows) ==> chain == ChainOf(c, rows)
    {
      codec := c;
      var stored := Reloaded(c, file);
      rows := stored;
      chain := EndChain(c, stored);
      mirror := Some(file);
    }

    method Append(kind: string, data: Json) returns (seqNo: nat)
      modifies this
      ensures seqNo == old(|rows|)
      ensures rows == old(rows) + [NewRow(codec, old(|rows|), old(chain), kind, data)]
      ensures chain == rows[|rows| - 1].chain
      ensures mirror == if old(mirror).Some? then Some(old(mirror).value + [rows[|rows| - 1]]) else None
      ensures old(chain == ChainOf(codec, rows)) ==> chain == ChainOf(codec, rows)
      ensures old(chain == ChainOf(codec, rows)) ==> (Verifies(codec, rows) <==> old(Verifies(codec, rows)))
      ensures !old(Verifies(codec, rows)) ==> !Verifies(codec, rows)
    {
      var sha := codec.sha(Canonical(data));
      chain := ChainStep(codec, chain, kind, sha);
      var row := Row(|rows|, kind, data, sha, chain);
      ghost var before := rows;
      rows := rows + [row];
      if mirror.Some? {
        mirror := Some(mirror.value + [row]);
      }
      assert rows[..|rows| - 1] == before;
      return row.seqNo;
    }

    method Verify() returns (ok: bool)
      ensures ok <==> Verifies(codec, rows)
    {
      var value := Start(codec);
      for i := 0 to |rows|
        invariant value == ChainOf(codec, rows[..i]) && Verifies(codec, rows[..i])
      {
        var row := rows[i];
        assert rows[..i + 1][..i] == rows[..i];
        if codec.sha(Canonical(row.data)) != row.sha {
          Unverified(codec, rows, i);
          return false;
        }
        value := ChainStep(codec, value, row.kind, row.sha);
        if value != row.chain {
          Unverified(codec, rows, i);
          return false;
        }
      }
      assert rows[..|rows|] == rows;
      return true;
    }
  }

  function NewRow(c: Codec, seqNo: nat, chain: string, kind: string, data: Json): (r: Row) {
    var sha := c.sha(Canonical(data));
    Row(seqNo, kind, data, sha, ChainStep(c, chain, kind, sha))
  }

  lemma {:induction false} Unverified(c: Codec, rows: seq<Row>, i: nat)
    requires i < |rows| && !Verifies(c, rows[..i + 1])
    ensures !Verifies(c, rows)
  {
    if Verifies(c, rows) {
      VerifiesPrefix(c, rows, i + 1);
    }
  }

  // ---------------------------------------------------------- tamper evidence

  predicate Collision(c: Codec, x: string, y: string) {
    x != y && c.sha(x) == c.sha(y)
  }

  /** Same kinds and same payload documents, row by row. */
  predicate SameContent(c: Codec, a: seq<Row>, b: seq<Row>) {
    && |a| == |b|
    && forall i :: 0 <= i < |a| ==> a[i].kind == b[i].kind && Dumped(a[i].data) == Dumped(b[i].data)
  }

  /** The text of a step determines its parts, even when the kind contains colons. */
  lemma {:induction false} StepTextInjective(p: string, k: string, s: string, p1: string, k1: string, s1: string)
    requires |p| == |p1| == DIGEST && |s| == |s1| == DIGEST
    requires StepText(p, k, s) == StepText(p1, k1, s1)
    ensures p == p1 && k == k1 && s == s1
  {
    var t, t1 := StepText(p, k, s), StepText(p1, k1, s1);
    assert |t| == |p| + 1 + |k| + 1 + |s|;
    assert p == t[..DIGEST] && p1 == t1[..DIGEST];
    assert s == t[|t| - DIGEST..] && s1 == t1[|t1| - DIGEST..];
    assert k == t[DIGEST + 1..|t| - DIGEST - 1] && k1 == t1[DIGEST + 1..|t1| - DIGEST - 1];
  }

  /** A step text is the previous chain value, the kind and the digest, in this order
      and parted by colons. */
  lemma {:induction false} StepTextParts(p: string, k: string, s: string)
    ensures var t := StepText(p, k, s);
            && |t| == |p| + |k| + |s| + 2 && t[..|p|] == p && t[|p|] == ':' && t[|p| + 1..|p| + 1 + |k|] == k
            && t[|p| + 1 + |k|] == ':' && t[|p| + 2 + |k|..] == s
  {
    var t := StepText(p, k, s);
    assert t == p + [':'] + k + [':'] + s;
  }

  /** No step text is the seed. */
  lemma {:induction false} StepTextNotSeed(p: string, k: string, s: string)
    requires |p| == DIGEST
    ensures StepText(p, k, s) != SEED
  {
    assert |StepText(p, k, s)| > DIGEST > |SEED|;
  }

  lemma {:induction false} ChainSize(c: Codec, rows: seq<Row>)
    requires ValidCodec(c)
    ensures |ChainOf(c, rows)| == DIGEST
  {
  }

  lemma {:induction false} PayloadsAgree(c: Codec, p: Json, q: Json) returns (x: string, y: string)
    requires c.sha(Canonical(p)) == c.sha(Canonical(q))
    ensures Dumped(p) == Dumped(q) || Collision(c, x, y)
  {
    x, y := Canonical(p), Canonical(q);
    WrittenInjective(Dumped(p), Dumped(q));
  }

  /** The text that the last step of a nonempty ledger hashes. */
  function LastText(c: Codec, rows: seq<Row>): (r: string)
    requires rows != []
  {
    var last := rows[|rows| - 1];
    StepText(ChainOf(c, rows[..|rows| - 1]), last.kind, c.sha(Canonical(last.data)))
  }

  lemma {:induction false} LastTextNotSeed(c: Codec, rows: seq<Row>)
    requires ValidCodec(c) && rows != []
    ensures LastText(c, rows) != SEED && ChainOf(c, rows) == c.sha(LastText(c, rows))
  {
    var last := rows[|rows| - 1];
    ChainSize(c, rows[..|rows| - 1]);
    StepTextNotSeed(ChainOf(c, rows[..|rows| - 1]), last.kind, c.sha(Canonical(last.data)));
  }

  lemma {:induction false} SameLastText(c: Codec, a: seq<Row>, b: seq<Row>)
    requires ValidCodec(c) && a != [] && b != [] && LastText(c, a) == LastText(c, b)
    ensures ChainOf(c, a[..|a| - 1]) == ChainOf(c, b[..|b| - 1]) && a[|a| - 1].kind == b[|b| - 1].kind
    ensures c.sha(Canonical(a[|a| - 1].data)) == c.sha(Canonical(b[|b| - 1].data))
  {
    var p, q := a[|a| - 1], b[|b| - 1];
    ChainSize(c, a[..|a| - 1]);
    ChainSize(c, b[..|b| - 1]);
    StepTextInjective(ChainOf(c, a[..|a| - 1]), p.kind, c.sha(Canonical(p.data)),
                      ChainOf(c, b[..|b| - 1]), q.kind, c.sha(Canonical(q.data)));
  }

  lemma {:induction false} SameContentSnoc(c: Codec, a: seq<Row>, b: seq<Row>)
    requires a != [] && b != [] && SameContent(c, a[..|a| - 1], b[..|b| - 1])
    requires a[|a| - 1].kind == b[|b| - 1].kind && Dumped(a[|a| - 1].data) == Dumped(b[|b| - 1].data)
    ensures SameContent(c, a, b)
  {
    assert a == a[..|a| - 1] + [a[|a| - 1]] && b == b[..|b| - 1] + [b[|b| - 1]];
  }

  /** One chain value commits to one content: two ledgers that end in the same
      chain value agree on length, kinds and payload documents, or exhibit a
      collision of the hash. `seq` is not committed. */
  lemma {:induction false} ChainCommits(c: Codec, a: seq<Row>, b: seq<Row>) returns (x: string, y: string)
    requires ValidCodec(c) && ChainOf(c, a) == ChainOf(c, b)
    ensures SameContent(c, a, b) || Collision(c, x, y)
    decreases |a| + |b|
  {
    x, y := "", "";
    if a == [] && b == [] {
      return;
    }
    if a == [] || b == [] {
      var l := if a == [] then b else a;
      LastTextNotSeed(c, l);
      x, y := SEED, LastText(c, l);
      return;
    }
    LastTextNotSeed(c, a);
    LastTextNotSeed(c, b);
    x, y := LastText(c, a), LastText(c, b);
    if x == y {
      SameLastText(c, a, b);
      x, y := PayloadsAgree(c, a[|a| - 1].data, b[|b| - 1].data);
      if !Collision(c, x, y) {
        x, y := ChainCommits(c, a[..|a| - 1], b[..|b| - 1]);
        if !Collision(c, x, y) {
          SameContentSnoc(c, a, b);
        }
      }
    }
  }

  /** The chain value a ledger ends in. */
  function EndChain(c: Codec, rows: seq<Row>): (r: string) {
    if rows == [] then Start(c) else rows[|rows| - 1].chain
  }

  /** Two verifying ledgers that end in one chain value have the same content, or collide. */
  lemma {:induction false} VerifiedLedgersAgree(c: Codec, a: seq<Row>, b: seq<Row>) returns (x: string, y: string)
    requires ValidCodec(c) && Verifies(c, a) && Verifies(c, b) && EndChain(c, a) == EndChain(c, b)
    ensures SameContent(c, a, b) || Collision(c, x, y)
  {
    x, y := ChainCommits(c, a, b);
  }

  /** An edit that keeps the last stored chain value but changes what a ledger
      says is caught by `verify`, unless it is built on a collision. */
  lemma {:induction false} TamperingShows(c: Codec, a: seq<Row>, b: seq<Row>) returns (x: string, y: string)
    requires ValidCodec(c) && Verifies(c, a) && !SameContent(c, a, b) && EndChain(c, a) == EndChain(c, b)
    ensures !Verifies(c, b) || Collision(c, x, y)
  {
    x, y := "", "";
    if Verifies(c, b) {
      x, y := VerifiedLedgersAgree(c, a, b);
    }
  }

  // ------------------------------------------------------------- reopening

  function Reloaded(c: Codec, rows: seq<Row>): (r: seq<Row>)
    ensures |r| == |rows|
  {
    if rows == [] then []
    else Reloaded(c, rows[..|rows| - 1]) + [rows[|rows| - 1].(data := Reread(rows[|rows| - 1].data))]
  }

  lemma {:induction false} ReloadedAt(c: Codec, rows: seq<Row>, i: nat)
    requires i < |rows|
    ensures Reloaded(c, rows)[i] == rows[i].(data := Reread(rows[i].data))
  {
    if i < |rows| - 1 {
      ReloadedAt(c, rows[..|rows| - 1], i);
    }
  }

  predicate StableRows(rows: seq<Row>) {
    forall i :: 0 <= i < |rows| ==> Stable(rows[i].data)
  }

  /** Rows whose payloads are stable verify again, with the same chain. */
  lemma {:induction false} StableReloads(c: Codec, rows: seq<Row>)
    requires Verifies(c, rows) && StableRows(rows)
    ensures Verifies(c, Reloaded(c, rows)) && ChainOf(c, Reloaded(c, rows)) == ChainOf(c, rows)
  {
    if rows != [] {
      var init, last := rows[..|rows| - 1], rows[|rows| - 1];
      StableReloads(c, init);
      RereadExactly(last.data);
      var r := Reloaded(c, rows);
      assert r[..|r| - 1] == Reloaded(c, init);
    }
  }

  lemma {:induction false} VerifiesAt(c: Codec, rows: seq<Row>, i: nat)
    requires Verifies(c, rows) && i < |rows|
    ensures rows[i].sha == c.sha(Canonical(rows[i].data))
  {
    if i < |rows| - 1 {
      VerifiesAt(c, rows[..|rows| - 1], i);
    }
  }

  /** A verified ledger verifies after reload exactly when its payloads are stable:
      every dict with number keys has them in the order of their texts. (That an
      unstable one fails is up to a collision of the hash.) */
  lemma {:induction false} ReloadVerifies(c: Codec, rows: seq<Row>) returns (x: string, y: string)
    requires Verifies(c, rows)
    ensures StableRows(rows) ==> Verifies(c, Reloaded(c, rows)) && ChainOf(c, Reloaded(c, rows)) == ChainOf(c, rows)
    ensures !StableRows(rows) ==> !Verifies(c, Reloaded(c, rows)) || Collision(c, x, y)
  {
    x, y := "", "";
    if StableRows(rows) {
      StableReloads(c, rows);
    } else if Verifies(c, Reloaded(c, rows)) {
      var i :| 0 <= i < |rows| && !Stable(rows[i].data);
      RereadExactly(rows[i].data);
      VerifiesAt(c, rows, i);
      ReloadedAt(c, rows, i);
      VerifiesAt(c, Reloaded(c, rows), i);
      x, y := Canonical(rows[i].data), Canonical(Reread(rows[i].data));
    }
  }

  /** In particular every ledger whose dicts have string keys. */
  lemma {:induction false} TextKeyedReloads(c: Codec, rows: seq<Row>)
    requires Verifies(c, rows) && forall i :: 0 <= i < |rows| ==> TextKeyed(rows[i].data)
    ensures Verifies(c, Reloaded(c, rows)) && ChainOf(c, Reloaded(c, rows)) == ChainOf(c, rows)
  {
    forall i | 0 <= i < |rows|
      ensures Stable(rows[i].data)
    {
      TextKeyedIsStable(rows[i].data);
    }
    StableReloads(c, rows);
  }

  /** A ledger of one row that verifies until it is read back: its payload has the
      keys 9 and 10. */
  lemma {:induction false} NineTenReload(c: Codec, kind: string) returns (x: string, y: string)
    ensures Verifies(c, [NewRow(c, 0, Start(c), kind, NINE_TEN)])
    ensures !Verifies(c, Reloaded(c, [NewRow(c, 0, Start(c), kind, NINE_TEN)])) || Collision(c, x, y)
  {
    var rows := [NewRow(c, 0, Start(c), kind, NINE_TEN)];
    assert rows[..0] == [];
    NineTenTurns();
    x, y := ReloadVerifies(c, rows);
    assert !Stable(rows[0].data);
  }

  /** Content determines the chain value. */
  lemma {:induction false} ContentChain(c: Codec, a: seq<Row>, b: seq<Row>)
    requires SameContent(c, a, b)
    ensures ChainOf(c, a) == ChainOf(c, b)
  {
    if a != [] {
      ContentChain(c, a[..|a| - 1], b[..|b| - 1]);
    }
  }

  predicate SameButSeq(a: Row, b: Row) {
    a.kind == b.kind && a.data == b.data && a.sha == b.sha && a.chain == b.chain
  }

  predicate Renumbered(a: seq<Row>, b: seq<Row>) {
    |a| == |b| && forall i :: 0 <= i < |a| ==> SameButSeq(a[i], b[i])
  }

  lemma {:induction false} RenumberedPrefix(a: seq<Row>, b: seq<Row>)
    requires a != [] && Renumbered(a, b)
    ensures Renumbered(a[..|a| - 1], b[..|b| - 1]) && SameButSeq(a[|a| - 1], b[|b| - 1])
  {
  }

  /** `seq` is not committed: renumbered rows have the same chain and verify alike. */
  lemma {:induction false} SeqNotCommitted(c: Codec, a: seq<Row>, b: seq<Row>)
    requires Renumbered(a, b)
    ensures ChainOf(c, a) == ChainOf(c, b) && (Verifies(c, a) <==> Verifies(c, b))
  {
    if a != [] {
      RenumberedPrefix(a, b);
      SeqNotCommitted(c, a[..|a| - 1], b[..|b| - 1]);
    }
  }
}
