/** What the generator's loops do to the `plugin.commands` and `plugin.skills` tables.

    Processing one descriptor either leaves the table alone, assigns one key, or throws
    (a read that fails aborts the whole run, since nothing catches it). A run of such
    steps is executed by `Exec`, which stops at the first failure. */
module Steps {

  datatype Step<V> = Skip | Put(key: string, value: V) | Fail

  /** A table after some steps, and whether every step completed. */
  datatype Run<V> = Run(table: map<string, V>, ok: bool)

  /** The one key a plain object does not store as its own: assigning `__proto__` runs
      the prototype setter, so no own key appears and neither `JSON.stringify` nor
      `Object.keys` sees it. */
  const ProtoKey: string := "__proto__"

  /** One step on a run: a failed run stays as it is; otherwise the step leaves the
      table alone, assigns one key, or fails. */
  function Apply<V>(r: Run<V>, step: Step<V>): (res: Run<V>)
    ensures res.ok <==> r.ok && !step.Fail?
    ensures res.table.Keys
            == if r.ok && step.Put? && step.key != ProtoKey then r.table.Keys + {step.key}
               else r.table.Keys
    ensures r.ok && step.Put? && step.key != ProtoKey ==> res.table[step.key] == step.value
    ensures forall k :: k in r.table && !(r.ok && step.Put? && step.key == k) ==> res.table[k] == r.table[k]
  {
    if !r.ok then r
    else
      match step
      case Skip => r
      case Put(k, v) => if k == ProtoKey then r else Run(r.table[k := v], true)
      case Fail => Run(r.table, false)
  }

  /** Executes the steps in order from table m; assignment is last-write-wins. */
  function Exec<V>(m: map<string, V>, steps: seq<Step<V>>): Run<V>
  {
    if steps == [] then Run(m, true)
    else Apply(Exec(m, steps[..|steps| - 1]), steps[|steps| - 1])
  }

  /** Carries on with more steps: a run that has failed stays as it is. */
  function Resume<V>(r: Run<V>, steps: seq<Step<V>>): Run<V>
  {
    if r.ok then Exec(r.table, steps) else r
  }

  predicate NoFail<V>(steps: seq<Step<V>>)
  {
    forall i :: 0 <= i < |steps| ==> !steps[i].Fail?
  }

  /** The keys the steps store: every assigned key except `__proto__`. */
  function PutKeys<V>(steps: seq<Step<V>>): set<string>
  {
    set i | 0 <= i < |steps| && steps[i].Put? && steps[i].key != ProtoKey :: steps[i].key
  }

  /** Executing a + b is executing a and then resuming with b. */
  lemma {:induction false} ExecAppend<V>(m: map<string, V>, a: seq<Step<V>>, b: seq<Step<V>>)
    ensures Exec(m, a + b) == Resume(Exec(m, a), b)
  {
    if b == [] {
      assert a + b == a;
    } else {
      var b' := b[..|b| - 1];
      assert (a + b)[..|a + b| - 1] == a + b';
      assert (a + b)[|a + b| - 1] == b[|b| - 1];
      ExecAppend(m, a, b');
    }
  }

  /** Resuming at index i is applying step i and resuming at index i + 1. */
  lemma ResumeAt<V>(r: Run<V>, steps: seq<Step<V>>, i: nat)
    requires i < |steps|
    ensures Resume(r, steps[i..]) == Resume(Apply(r, steps[i]), steps[i + 1..])
  {
    if r.ok {
      assert steps[i..] == [steps[i]] + steps[i + 1..];
      ExecAppend(r.table, [steps[i]], steps[i + 1..]);
      assert [steps[i]][..0] == [];
    }
  }

  /** A run completes exactly when none of its steps fails. */
  lemma {:induction false} ExecOk<V>(m: map<string, V>, steps: seq<Step<V>>)
    ensures Exec(m, steps).ok <==> NoFail(steps)
  {
    if steps != [] {
      var init := steps[..|steps| - 1];
      ExecOk(m, init);
      assert forall i :: 0 <= i < |init| ==> init[i] == steps[i];
    }
  }

  /** A completed run holds the keys it started with and the keys it assigned. */
  lemma {:induction false} ExecKeys<V>(m: map<string, V>, steps: seq<Step<V>>)
    requires NoFail(steps)
    ensures Exec(m, steps).table.Keys == m.Keys + PutKeys(steps)
  {
    if steps != [] {
      var init := steps[..|steps| - 1];
      var last := steps[|steps| - 1];
      assert forall i :: 0 <= i < |init| ==> init[i] == steps[i];
      ExecKeys(m, init);
      ExecOk(m, init);
      if last.Put? && last.key != ProtoKey {
        assert PutKeys(steps) == PutKeys(init) + {last.key};
      } else {
        assert PutKeys(steps) == PutKeys(init);
      }
    }
  }

  /** A key no step assigns keeps its state, whether or not the run fails. */
  lemma {:induction false} ExecUntouched<V>(m: map<string, V>, steps: seq<Step<V>>, k: string)
    requires k !in PutKeys(steps)
    ensures k in Exec(m, steps).table <==> k in m
    ensures k in m ==> Exec(m, steps).table[k] == m[k]
  {
    if steps != [] {
      var init := steps[..|steps| - 1];
      assert forall i :: 0 <= i < |init| ==> init[i] == steps[i];
      assert PutKeys(init) <= PutKeys(steps);
      ExecUntouched(m, init, k);
    }
  }

  /** Last write wins: after a completed run, a key holds the value of the last step
      that assigned it. */
  lemma {:induction false} ExecLastWins<V>(m: map<string, V>, steps: seq<Step<V>>, i: nat)
    requires NoFail(steps)
    requires i < |steps| && steps[i].Put? && steps[i].key != ProtoKey
    requires forall j :: i < j < |steps| && steps[j].Put? ==> steps[j].key != steps[i].key
    ensures steps[i].key in Exec(m, steps).table
    ensures Exec(m, steps).table[steps[i].key] == steps[i].value
  {
    var init := steps[..|steps| - 1];
    assert forall j :: 0 <= j < |init| ==> init[j] == steps[j];
    ExecOk(m, init);
    if i < |steps| - 1 {
      ExecLastWins(m, init, i);
    }
  }

  /** After a completed run, the value of an assigned key was written by one of its steps. */
  lemma {:induction false} ExecFromPut<V>(m: map<string, V>, steps: seq<Step<V>>, k: string)
    requires NoFail(steps)
    requires k in Exec(m, steps).table && k in PutKeys(steps)
    ensures exists i :: 0 <= i < |steps| && steps[i] == Put(k, Exec(m, steps).table[k])
  {
    var init := steps[..|steps| - 1];
    var last := steps[|steps| - 1];
    assert forall j :: 0 <= j < |init| ==> init[j] == steps[j];
    var r := Exec(m, init);
    ExecOk(m, init);
    if last.Put? && last.key == k {
      assert steps[|steps| - 1] == Put(k, Exec(m, steps).table[k]);
    } else {
      assert k in PutKeys(init) by {
        var i :| 0 <= i < |steps| && steps[i].Put? && steps[i].key != ProtoKey && steps[i].key == k;
        assert i < |init| && init[i] == steps[i];
      }
      assert Exec(m, steps).table[k] == r.table[k];
      ExecFromPut(m, init, k);
    }
  }

  /** When every step that assigns k assigns the same value v, a completed run ends with
      k holding v. */
  lemma ExecAgreeingPuts<V>(m: map<string, V>, steps: seq<Step<V>>, k: string, v: V)
    requires NoFail(steps) && k != ProtoKey
    requires exists i :: 0 <= i < |steps| && steps[i] == Put(k, v)
    requires forall j :: 0 <= j < |steps| && steps[j].Put? && steps[j].key == k ==> steps[j].value == v
    ensures k in Exec(m, steps).table && Exec(m, steps).table[k] == v
  {
    var i :| 0 <= i < |steps| && steps[i] == Put(k, v);
    ExecKeys(m, steps);
    assert k in PutKeys(steps);
    ExecFromPut(m, steps, k);
  }

  /** Starting from an empty table, a completed run holds one entry per distinct key
      assigned: the count reported by the summary line. */
  lemma ExecCount<V>(steps: seq<Step<V>>)
    requires NoFail(steps)
    ensures |Exec(map[], steps).table| == |PutKeys(steps)|
  {
    ExecKeys(map[], steps);
    assert Exec(map[], steps).table.Keys == PutKeys(steps);
  }

  /** A table filled from empty never holds `__proto__` as a key, whatever the steps. */
  lemma NoProtoKey<V>(steps: seq<Step<V>>)
    ensures ProtoKey !in Exec(map[], steps).table
  {
    ExecUntouched(map[], steps, ProtoKey);
  }
}
