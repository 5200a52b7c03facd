/** Gate-level netlists as the circuit generator emits them, and a plain
    (ungarbled) evaluator for them: a map from wire id to bit, folded over the
    gate list in order. */
module Circuit {
  import opened Wrappers
  import opened Bits

  datatype GateKind = XOR | AND | OR | NOT

  /** A gate record {"id", "type", "in"}; its id is also the id of the wire
      that carries its output. */
  datatype Gate = Gate(id: nat, kind: GateKind, ins: seq<nat>)

  /** The four lists a generator returns: Alice's input wires, Bob's input
      wires, the output wires and the gates. */
  datatype Netlist = Netlist(alice: seq<nat>, bob: seq<nat>, outs: seq<nat>, gates: seq<Gate>)

  /** The bits known so far, by wire id. */
  type Env = map<nat, Bit>

  /** The wire ids first, first + 1, ..., first + n - 1. */
  function Range(first: nat, n: nat): (r: seq<nat>)
    ensures |r| == n
    ensures forall j :: 0 <= j < n ==> r[j] == first + j
    decreases n
  {
    if n == 0 then [] else Range(first, n - 1) + [first + n - 1]
  }

  /** The truth table of a two-input gate. */
  function Binary(kind: GateKind, x: Bit, y: Bit): Bit
    requires kind != NOT
  {
    if kind == XOR then (if x != y then 1 else 0)
    else if kind == AND then (if x == 1 && y == 1 then 1 else 0)
    else (if x == 1 || y == 1 then 1 else 0)
  }

  /** NOT takes one input wire, every other gate type two. */
  predicate ArityOk(g: Gate)
  {
    if g.kind == NOT then |g.ins| == 1 else |g.ins| == 2
  }

  /** Evaluates one gate; None when its arity is wrong or an input wire has
      no value yet (a dangling reference). */
  function Step(env: Env, g: Gate): Option<Env>
  {
    if g.kind == NOT then
      if |g.ins| == 1 && g.ins[0] in env then Some(env[g.id := 1 - env[g.ins[0]]]) else None
    else if |g.ins| == 2 && g.ins[0] in env && g.ins[1] in env then
      Some(env[g.id := Binary(g.kind, env[g.ins[0]], env[g.ins[1]])])
    else None
  }

  /** Evaluates the gates in list order, starting from the input bits in env. */
  function Run(gates: seq<Gate>, env: Env): Option<Env>
    decreases |gates|
  {
    if |gates| == 0 then Some(env)
    else match Step(env, gates[0])
      case None => None
      case Some(next) => Run(gates[1..], next)
  }

  /** The bits on the given wires. */
  function Values(env: Env, ws: seq<nat>): (r: seq<Bit>)
    requires forall i :: 0 <= i < |ws| ==> ws[i] in env
    ensures |r| == |ws|
    ensures forall i :: 0 <= i < |ws| ==> r[i] == env[ws[i]]
  {
    seq(|ws|, i requires 0 <= i < |ws| => env[ws[i]])
  }

  lemma ValuesAppend(env: Env, ws: seq<nat>, w: nat)
    requires forall i :: 0 <= i < |ws| ==> ws[i] in env
    requires w in env
    ensures Values(env, ws + [w]) == Values(env, ws) + [env[w]]
  {
    assert forall i :: 0 <= i < |ws| ==> (ws + [w])[i] == ws[i];
  }

  /** The env that puts the bits of s on the wires first, first + 1, .... */
  function RangeEnv(first: nat, s: seq<Bit>): Env
    decreases |s|
  {
    if |s| == 0 then map[]
    else RangeEnv(first, s[..|s| - 1])[first + |s| - 1 := s[|s| - 1]]
  }

  /** The wires first .. first + n - 1. */
  ghost function WireSet(first: nat, n: nat): set<nat>
  {
    set w | w in Range(first, n)
  }

  /** RangeEnv(first, s) knows exactly the wires first .. first + |s| - 1. */
  lemma RangeEnvKeys(first: nat, s: seq<Bit>)
    ensures RangeEnv(first, s).Keys == WireSet(first, |s|)
  {
    RangeEnvAt(first, s);
    forall w | first <= w < first + |s|
      ensures w in Range(first, |s|)
    {
      assert Range(first, |s|)[w - first] == w;
    }
  }

  /** RangeEnv(first, s) knows exactly the wires first .. first + |s| - 1,
      and wire first + j carries s[j]. */
  lemma {:induction false} RangeEnvAt(first: nat, s: seq<Bit>)
    ensures forall w :: w in RangeEnv(first, s) <==> first <= w < first + |s|
    ensures forall j :: 0 <= j < |s| ==> RangeEnv(first, s)[first + j] == s[j]
    decreases |s|
  {
    if |s| > 0 {
      RangeEnvAt(first, s[..|s| - 1]);
    }
  }

  /** The bits on the wires of a + b: a's bits from first on, b's right
      after them. */
  lemma {:induction false} RangeEnvSplit(first: nat, a: seq<Bit>, b: seq<Bit>)
    ensures RangeEnv(first, a + b) == RangeEnv(first, a) + RangeEnv(first + |a|, b)
    decreases |b|
  {
    if |b| == 0 {
      assert a + b == a;
    } else {
      var n := |b|;
      assert (a + b)[..|a + b| - 1] == a + b[..n - 1];
      RangeEnvSplit(first, a, b[..n - 1]);
    }
  }

  /** The dict a party builds from its wire list and its bit list,
      wire ws[i] to vals[i] for every position of ws, in order: a later
      position wins when a wire repeats, and values past the last wire are
      not used. */
  function Assign<V>(ws: seq<nat>, vals: seq<V>): map<nat, V>
    requires |vals| >= |ws|
    decreases |ws|
  {
    if |ws| == 0 then map[]
    else Assign(ws[..|ws| - 1], vals)[ws[|ws| - 1] := vals[|ws| - 1]]
  }

  /** The map has exactly the listed wires as keys. */
  lemma {:induction false} AssignKeys<V>(ws: seq<nat>, vals: seq<V>)
    requires |vals| >= |ws|
    ensures forall w :: w in Assign(ws, vals) <==> w in ws
    decreases |ws|
  {
    if |ws| > 0 {
      AssignKeys(ws[..|ws| - 1], vals);
      assert ws == ws[..|ws| - 1] + [ws[|ws| - 1]];
    }
  }

  /** Wire ws[i] carries vals[i] when no later position names it again. */
  lemma {:induction false} AssignAt<V>(ws: seq<nat>, vals: seq<V>, i: nat)
    requires |vals| >= |ws| && i < |ws|
    requires forall j :: i < j < |ws| ==> ws[j] != ws[i]
    ensures ws[i] in Assign(ws, vals) && Assign(ws, vals)[ws[i]] == vals[i]
    decreases |ws|
  {
    if i < |ws| - 1 {
      AssignAt(ws[..|ws| - 1], vals, i);
    }
  }

  /** Assigning the bits of s to the wires first .. first + |s| - 1 puts
      s[j] on wire first + j and sets no other wire. */
  lemma AssignRangeAt(first: nat, s: seq<Bit>)
    ensures forall w :: w in Assign<Bit>(Range(first, |s|), s) <==> first <= w < first + |s|
    ensures forall j :: 0 <= j < |s| ==> Assign<Bit>(Range(first, |s|), s)[first + j] == s[j]
  {
    var ws := Range(first, |s|);
    AssignKeys(ws, s);
    forall w | first <= w < first + |s|
      ensures w in ws
    {
      assert ws[w - first] == w;
    }
    forall j | 0 <= j < |s|
      ensures Assign(ws, s)[first + j] == s[j]
    {
      AssignAt(ws, s, j);
    }
  }

  /** So it is the same map as RangeEnv. */
  lemma AssignRange(first: nat, s: seq<Bit>)
    ensures Assign<Bit>(Range(first, |s|), s) == RangeEnv(first, s)
  {
    var m := Assign<Bit>(Range(first, |s|), s);
    var e := RangeEnv(first, s);
    AssignRangeAt(first, s);
    RangeEnvAt(first, s);
    forall w | w in m
      ensures w in e && m[w] == e[w]
    {
      var j := w - first;
      assert m[first + j] == s[j] == e[first + j];
    }
    assert m.Keys == e.Keys;
  }

  /** Alice's bits assigned to the wires from 1 on and Bob's to the wires
      right after hers together are the bits of a + b from wire first on. */
  lemma TwoPartyInputs(first: nat, a: seq<Bit>, b: seq<Bit>)
    ensures Assign<Bit>(Range(first, |a|), a) + Assign<Bit>(Range(first + |a|, |b|), b) == RangeEnv(first, a + b)
  {
    AssignRange(first, a);
    AssignRange(first + |a|, b);
    RangeEnvSplit(first, a, b);
  }

  /** m holds every bit env holds on a wire below bound. */
  ghost predicate Agree(env: Env, m: Env, bound: nat)
  {
    forall w :: w in env && w < bound ==> w in m && m[w] == env[w]
  }

  /** Agreement below a bound composes along a chain of environments. */
  lemma AgreeTrans(e0: Env, e1: Env, e2: Env, b1: nat, b2: nat)
    requires Agree(e0, e1, b1) && Agree(e1, e2, b2) && b1 <= b2
    ensures Agree(e0, e2, b1)
  {
  }

  ghost predicate ConsecutiveIds(gates: seq<Gate>, first: nat)
  {
    forall j :: 0 <= j < |gates| ==> gates[j].id == first + j
  }

  /** A wire that is an input, or the output of one of the first k gates. */
  ghost predicate DefinedBefore(inputs: set<nat>, gates: seq<Gate>, k: nat, w: nat)
  {
    w in inputs || exists j :: 0 <= j < k && j < |gates| && gates[j].id == w
  }

  /** Every gate has the arity its type demands and reads only input wires or
      wires of gates listed before it. */
  ghost predicate WellFormed(inputs: set<nat>, gates: seq<Gate>)
  {
    forall k :: 0 <= k < |gates| ==>
      ArityOk(gates[k]) &&
      forall i :: 0 <= i < |gates[k].ins| ==> DefinedBefore(inputs, gates, k, gates[k].ins[i])
  }

  /** Two runs of consecutive ids, the second starting where the first
      stops, make one. */
  lemma ConsecutiveAppend(g1: seq<Gate>, g2: seq<Gate>, first: nat)
    requires ConsecutiveIds(g1, first) && ConsecutiveIds(g2, first + |g1|)
    ensures ConsecutiveIds(g1 + g2, first)
  {
    forall j | 0 <= j < |g1 + g2|
      ensures (g1 + g2)[j].id == first + j
    {
      if j >= |g1| {
        assert (g1 + g2)[j] == g2[j - |g1|];
      }
    }
  }

  /** Gate ids strictly increase along the list and every input wire of a
      gate has a smaller id than the gate. */
  ghost predicate Topological(gates: seq<Gate>)
  {
    && (forall j, k :: 0 <= j < k < |gates| ==> gates[j].id < gates[k].id)
    && (forall k, i :: 0 <= k < |gates| && 0 <= i < |gates[k].ins| ==> gates[k].ins[i] < gates[k].id)
  }

  /** Evaluating a concatenation is evaluating its halves one after the other. */
  lemma {:induction false} RunAppend(g1: seq<Gate>, g2: seq<Gate>, env: Env, mid: Env)
    requires Run(g1, env) == Some(mid)
    ensures Run(g1 + g2, env) == Run(g2, mid)
  {
    if |g1| == 0 {
      assert g1 + g2 == g2;
    } else {
      assert (g1 + g2)[0] == g1[0];
      assert (g1 + g2)[1..] == g1[1..] + g2;
      RunAppend(g1[1..], g2, Step(env, g1[0]).value, mid);
    }
  }

  /** Evaluating a single two-input gate whose inputs are known. */
  lemma GateRun(g: Gate, env: Env)
    requires g.kind != NOT && |g.ins| == 2 && g.ins[0] in env && g.ins[1] in env
    ensures Run([g], env) == Some(env[g.id := Binary(g.kind, env[g.ins[0]], env[g.ins[1]])])
  {
    assert [g][1..] == [];
  }

  /** Evaluation only adds wires: it keeps every bit it started with on wires
      below the smallest gate id, and gives every gate's wire a bit. */
  lemma {:induction false} RunKeeps(gates: seq<Gate>, env: Env, bound: nat)
    requires Run(gates, env).Some?
    requires forall j :: 0 <= j < |gates| ==> gates[j].id >= bound
    ensures Agree(env, Run(gates, env).value, bound)
    ensures env.Keys <= Run(gates, env).value.Keys
    ensures forall j :: 0 <= j < |gates| ==> gates[j].id in Run(gates, env).value
  {
    if |gates| > 0 {
      var next := Step(env, gates[0]).value;
      RunKeeps(gates[1..], next, bound);
      var m := Run(gates, env).value;
      forall j | 0 <= j < |gates|
        ensures gates[j].id in m
      {
        if j > 0 {
          assert gates[j] == gates[1..][j - 1];
        }
      }
    }
  }

  /** An evaluation that succeeds from exactly the input wires proves the
      netlist structurally sound: right arities and no dangling reference. */
  lemma {:induction false} RunImpliesWellFormed(gates: seq<Gate>, env: Env)
    requires Run(gates, env).Some?
    ensures WellFormed(env.Keys, gates)
  {
    if |gates| > 0 {
      var next := Step(env, gates[0]).value;
      RunImpliesWellFormed(gates[1..], next);
      assert next.Keys == env.Keys + {gates[0].id};
      forall k | 0 <= k < |gates|
        ensures ArityOk(gates[k])
        ensures forall i :: 0 <= i < |gates[k].ins| ==> DefinedBefore(env.Keys, gates, k, gates[k].ins[i])
      {
        if k > 0 {
          var rest := gates[1..];
          assert gates[k] == rest[k - 1];
          forall i | 0 <= i < |gates[k].ins|
            ensures DefinedBefore(env.Keys, gates, k, gates[k].ins[i])
          {
            var w := gates[k].ins[i];
            assert DefinedBefore(next.Keys, rest, k - 1, w);
            if w !in env.Keys && w != gates[0].id {
              var j :| 0 <= j < k - 1 && j < |rest| && rest[j].id == w;
              assert gates[j + 1].id == w;
            }
          }
        }
      }
    }
  }

  /** With consecutive ids above every input wire, a well-formed netlist is
      in topological order. */
  lemma WellFormedIsTopological(inputs: set<nat>, gates: seq<Gate>, first: nat)
    requires WellFormed(inputs, gates)
    requires ConsecutiveIds(gates, first)
    requires forall w :: w in inputs ==> w < first
    ensures Topological(gates)
  {
    forall k, i | 0 <= k < |gates| && 0 <= i < |gates[k].ins|
      ensures gates[k].ins[i] < gates[k].id
    {
      assert DefinedBefore(inputs, gates, k, gates[k].ins[i]);
    }
  }

  /** A netlist that evaluates from input wires start .. start + n - 1, with
      consecutive gate ids above them, is well formed over those inputs and
      in topological order. */
  lemma RunIsTopological(gates: seq<Gate>, env: Env, start: nat, n: nat, first: nat)
    requires Run(gates, env).Some?
    requires env.Keys == WireSet(start, n) && start + n <= first
    requires ConsecutiveIds(gates, first)
    ensures WellFormed(WireSet(start, n), gates)
    ensures Topological(gates)
  {
    RunImpliesWellFormed(gates, env);
    forall w | w in WireSet(start, n)
      ensures w < first
    {
      var j :| 0 <= j < n && Range(start, n)[j] == w;
    }
    WellFormedIsTopological(env.Keys, gates, first);
  }

  /** The wire holding the running result of a chain over ws whose gates
      start at id first: ws[0] itself when there is nothing to combine. */
  function ChainOut(ws: seq<nat>, first: nat): nat
    requires |ws| >= 1
  {
    if |ws| == 1 then ws[0] else first + |ws| - 2
  }

  /** The left fold the generator writes three times: gate j combines the
      running result (ws[0] for the first gate, gate j - 1 after that) with
      wire ws[j + 1]. */
  function Chain(kind: GateKind, ws: seq<nat>, first: nat): seq<Gate>
    requires |ws| >= 1
  {
    seq(|ws| - 1, j requires 0 <= j < |ws| - 1 =>
      Gate(first + j, kind, [if j == 0 then ws[0] else first + j - 1, ws[j + 1]]))
  }

  /** A chain over one more wire is the shorter chain and one more gate,
      which reads the shorter chain's result. */
  lemma ChainSnoc(kind: GateKind, ws: seq<nat>, first: nat)
    requires |ws| >= 2
    ensures Chain(kind, ws, first) == Chain(kind, ws[..|ws| - 1], first)
      + [Gate(first + |ws| - 2, kind, [ChainOut(ws[..|ws| - 1], first), ws[|ws| - 1]])]
  {
  }

  /** The same fold on bits. */
  function Fold(kind: GateKind, vals: seq<Bit>): Bit
    requires |vals| >= 1
    requires kind != NOT
    decreases |vals|
  {
    if |vals| == 1 then vals[0]
    else Binary(kind, Fold(kind, vals[..|vals| - 1]), vals[|vals| - 1])
  }

  /** A chain over |ws| wires has |ws| - 1 two-input gates of its kind with
      consecutive ids. */
  lemma ChainShape(kind: GateKind, ws: seq<nat>, first: nat)
    requires |ws| >= 1
    ensures |Chain(kind, ws, first)| == |ws| - 1
    ensures ConsecutiveIds(Chain(kind, ws, first), first)
    ensures forall j :: 0 <= j < |ws| - 1 ==>
      Chain(kind, ws, first)[j].kind == kind && |Chain(kind, ws, first)[j].ins| == 2
  {
  }

  lemma {:induction false} FoldAnd(vals: seq<Bit>)
    requires |vals| >= 1
    ensures Fold(AND, vals) == 1 <==> forall i :: 0 <= i < |vals| ==> vals[i] == 1
  {
    if |vals| > 1 {
      var init := vals[..|vals| - 1];
      FoldAnd(init);
      assert forall i :: 0 <= i < |init| ==> init[i] == vals[i];
    }
  }

  lemma {:induction false} FoldOr(vals: seq<Bit>)
    requires |vals| >= 1
    ensures Fold(OR, vals) == 1 <==> exists i :: 0 <= i < |vals| && vals[i] == 1
  {
    if |vals| > 1 {
      var init := vals[..|vals| - 1];
      FoldOr(init);
      assert forall i :: 0 <= i < |init| ==> init[i] == vals[i];
    }
  }

  /** Evaluating a chain whose wires are known and lie below its first id
      puts the fold of their bits on its result wire and keeps every earlier
      wire. */
  lemma {:induction false} ChainRun(kind: GateKind, ws: seq<nat>, first: nat, env: Env)
    requires |ws| >= 1
    requires kind != NOT
    requires forall i :: 0 <= i < |ws| ==> ws[i] in env && ws[i] < first
    ensures Run(Chain(kind, ws, first), env).Some?
    ensures ChainOut(ws, first) in Run(Chain(kind, ws, first), env).value
    ensures Run(Chain(kind, ws, first), env).value[ChainOut(ws, first)] == Fold(kind, Values(env, ws))
    ensures Agree(env, Run(Chain(kind, ws, first), env).value, first)
  {
    if |ws| > 1 {
      var init := ws[..|ws| - 1];
      ChainRun(kind, init, first, env);
      var mid := Run(Chain(kind, init, first), env).value;
      var last := ws[|ws| - 1];
      var g := Gate(first + |ws| - 2, kind, [ChainOut(init, first), last]);
      ChainSnoc(kind, ws, first);
      RunAppend(Chain(kind, init, first), [g], env, mid);
      assert last in mid && mid[last] == env[last];
      assert Values(env, ws)[..|ws| - 1] == Values(env, init);
      assert Run([g], mid) == Step(mid, g);
    }
  }
}
