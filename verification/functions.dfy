/**
 The function table: a registry from function name to native callable. The
 last registration of a name wins. Looking up a name that was never
 registered, or one whose registered callable is the null `Function`,
 yields None.
 */
module FunctionTable {
  import opened Wrappers

  /**
   The callables that can be registered: the null `Function`, the builtins,
   `Literal`, and host-supplied functions.
   */
  datatype Fn =
    | NullFn
    | IfElseFn | AbortFn | AssertFn | ConcatFn | SubstringFn | StdoutFn | SleepFn
    | LessThanIntFn | GreaterThanIntFn | LiteralFn
    | HostFn(id: nat)

  type Table = map<string, Fn>

  /** One call of `RegisterFunction`, as it appears in a registration history. */
  datatype Registration = Registration(name: string, fn: Fn)

  /** The entry stored for `name`, as `fn_table.find` sees it: None when there is none. */
  function Entry(t: Table, name: string): Option<Fn> {
    if name in t then Some(t[name]) else None
  }

  /** A stored callable as a lookup hands it back: the null `Function` reads as None. */
  function Callable(f: Fn): Option<Fn> {
    if f.NullFn? then None else Some(f)
  }

  /** `RegisterFunction`: inserts or overwrites the entry for `name`. */
  function RegisterFunction(t: Table, name: string, fn: Fn): (t': Table)
    ensures Entry(t', name) == Some(fn)
    ensures FindFunction(t', name) == Callable(fn)
    ensures forall n :: n != name ==> Entry(t', n) == Entry(t, n)
    ensures t'.Keys == t.Keys + {name}
  {
    t[name := fn]
  }

  /**
   `FindFunction`: the callable bound to `name`; None when the name is not
   bound or is bound to the null `Function`.
   */
  function FindFunction(t: Table, name: string): (r: Option<Fn>)
    ensures r.None? <==> name !in t || t[name] == NullFn
    ensures r.Some? ==> name in t && t[name] == r.value
  {
    if name !in t then None else Callable(t[name])
  }

  /** Applies a history of registrations to a table, oldest first. */
  function Replay(t: Table, log: seq<Registration>): Table
    decreases |log|
  {
    if |log| == 0 then t
    else Replay(RegisterFunction(t, log[0].name, log[0].fn), log[1..])
  }

  /** The names a history registers. */
  function Names(log: seq<Registration>): set<string>
    decreases |log|
  {
    if |log| == 0 then {} else {log[0].name} + Names(log[1..])
  }

  /**
   Reference definition of a lookup: the callable of the most recent
   registration of `name` in the history, or None if there is none.
   */
  function LastRegistered(log: seq<Registration>, name: string): (r: Option<Fn>)
    ensures r.None? <==> forall i :: 0 <= i < |log| ==> log[i].name != name
    decreases |log|
  {
    if |log| == 0 then None
    else if log[|log| - 1].name == name then Some(log[|log| - 1].fn)
    else LastRegistered(log[..|log| - 1], name)
  }

  /**
   What `LastRegistered` finds is a registration of that name in the history
   after which the name is never registered again.
   */
  lemma {:induction false} LastRegisteredIsMostRecent(log: seq<Registration>, name: string)
    requires LastRegistered(log, name).Some?
    ensures exists i :: 0 <= i < |log| && log[i] == Registration(name, LastRegistered(log, name).value)
                        && forall j :: i < j < |log| ==> log[j].name != name
    decreases |log|
  {
    var last := |log| - 1;
    if log[last].name == name {
      assert log[last] == Registration(name, LastRegistered(log, name).value);
    } else {
      var init := log[..last];
      LastRegisteredIsMostRecent(init, name);
      var i :| 0 <= i < |init| && init[i] == Registration(name, LastRegistered(init, name).value)
               && forall j :: i < j < |init| ==> init[j].name != name;
      assert log[i] == init[i];
      forall j | i < j < |log| ensures log[j].name != name {
        if j < last {
          assert log[j] == init[j];
        }
      }
    }
  }

  /**
   After replaying a history, a name's entry is its most recent registration;
   names the history never registers keep their old entry. Lookups follow.
   */
  lemma {:induction false} FindAfterReplay(t: Table, log: seq<Registration>, name: string)
    ensures Entry(Replay(t, log), name)
         == if LastRegistered(log, name).Some? then LastRegistered(log, name)
            else Entry(t, name)
    ensures FindFunction(Replay(t, log), name)
         == if LastRegistered(log, name).Some? then Callable(LastRegistered(log, name).value)
            else FindFunction(t, name)
    ensures Replay(t, log).Keys == t.Keys + Names(log)
    decreases |log|
  {
    if |log| > 0 {
      var t1 := RegisterFunction(t, log[0].name, log[0].fn);
      var rest := log[1..];
      FindAfterReplay(t1, rest, name);
      LastRegisteredSplit(log[0], rest, name);
      assert log == [log[0]] + rest;
    }
  }

  /** The most recent registration of a name is found in the later part of a history if it is there at all. */
  lemma {:induction false} LastRegisteredSplit(first: Registration, rest: seq<Registration>, name: string)
    ensures LastRegistered([first] + rest, name)
         == if LastRegistered(rest, name).Some? then LastRegistered(rest, name)
            else if first.name == name then Some(first.fn)
            else None
    decreases |rest|
  {
    var log := [first] + rest;
    if |rest| > 0 {
      assert log[..|log| - 1] == [first] + rest[..|rest| - 1];
      if rest[|rest| - 1].name != name {
        LastRegisteredSplit(first, rest[..|rest| - 1], name);
      }
    }
  }

  /** Two tables with the same entry for every name are the same table. */
  lemma TablesAgree(a: Table, b: Table)
    requires forall n :: Entry(a, n) == Entry(b, n)
    ensures a == b
  {
    assert a.Keys == b.Keys by {
      forall n ensures n in a <==> n in b {
        assert Entry(a, n) == Entry(b, n);
      }
    }
    forall n | n in a ensures a[n] == b[n] {
      assert Entry(a, n) == Entry(b, n);
    }
  }

  /** Replaying the same history twice is the same as replaying it once. */
  lemma ReplayIdempotent(t: Table, log: seq<Registration>)
    ensures Replay(Replay(t, log), log) == Replay(t, log)
  {
    var once := Replay(t, log);
    forall n ensures Entry(Replay(once, log), n) == Entry(once, n) {
      FindAfterReplay(once, log, n);
      FindAfterReplay(t, log, n);
    }
    TablesAgree(Replay(once, log), once);
  }

  const BuiltinNames: set<string> := {
    "ifelse", "abort", "assert", "concat", "is_substring", "stdout", "sleep",
    "less_than_int", "greater_than_int"
  }

  /**
   `RegisterBuiltins`: binds the nine builtin names to their callables, in
   source order, overwriting any earlier binding of those names and leaving
   every other name as it was.
   */
  function RegisterBuiltins(t: Table): (t': Table)
    ensures t'.Keys == t.Keys + BuiltinNames
    ensures FindFunction(t', "ifelse") == Some(IfElseFn)
    ensures FindFunction(t', "abort") == Some(AbortFn)
    ensures FindFunction(t', "assert") == Some(AssertFn)
    ensures FindFunction(t', "concat") == Some(ConcatFn)
    ensures FindFunction(t', "is_substring") == Some(SubstringFn)
    ensures FindFunction(t', "stdout") == Some(StdoutFn)
    ensures FindFunction(t', "sleep") == Some(SleepFn)
    ensures FindFunction(t', "less_than_int") == Some(LessThanIntFn)
    ensures FindFunction(t', "greater_than_int") == Some(GreaterThanIntFn)
    ensures forall n :: n !in BuiltinNames ==> Entry(t', n) == Entry(t, n)
    ensures forall n :: n !in BuiltinNames ==> FindFunction(t', n) == FindFunction(t, n)
  {
    // Each update is one RegisterFunction call; RegisterBuiltinsIsReplay
    // shows that the whole is the replay of BuiltinLog.
    t["ifelse" := IfElseFn]
     ["abort" := AbortFn]
     ["assert" := AssertFn]
     ["concat" := ConcatFn]
     ["is_substring" := SubstringFn]
     ["stdout" := StdoutFn]
     ["sleep" := SleepFn]
     ["less_than_int" := LessThanIntFn]
     ["greater_than_int" := GreaterThanIntFn]
  }

  /** `RegisterBuiltins` on an empty table binds exactly the nine builtin names. */
  lemma BuiltinsOnEmptyTable()
    ensures RegisterBuiltins(map[]).Keys == BuiltinNames
    ensures FindFunction(RegisterBuiltins(map[]), "literal") == None
  {
  }

  /** Calling `RegisterBuiltins` again changes nothing. */
  lemma RegisterBuiltinsIdempotent(t: Table)
    ensures RegisterBuiltins(RegisterBuiltins(t)) == RegisterBuiltins(t)
  {
    var once := RegisterBuiltins(t);
    forall n ensures Entry(RegisterBuiltins(once), n) == Entry(once, n) {
    }
    TablesAgree(RegisterBuiltins(once), once);
  }

  /** The registrations `RegisterBuiltins` performs, in source order. */
  const BuiltinLog: seq<Registration> := [
    Registration("ifelse", IfElseFn),
    Registration("abort", AbortFn),
    Registration("assert", AssertFn),
    Registration("concat", ConcatFn),
    Registration("is_substring", SubstringFn),
    Registration("stdout", StdoutFn),
    Registration("sleep", SleepFn),
    Registration("less_than_int", LessThanIntFn),
    Registration("greater_than_int", GreaterThanIntFn)
  ]

  /** Replaying the rest of `BuiltinLog` from entry `i` starts with that entry's registration. */
  lemma ReplayBuiltinFrom(t: Table, i: nat)
    requires i < |BuiltinLog|
    ensures Replay(t, BuiltinLog[i..])
         == Replay(t[BuiltinLog[i].name := BuiltinLog[i].fn], BuiltinLog[i + 1..])
  {
    assert BuiltinLog[i..][1..] == BuiltinLog[i + 1..];
  }

  /** Replaying `BuiltinLog` performs its nine map updates in order. */
  lemma ReplayBuiltinLog(t: Table)
    ensures Replay(t, BuiltinLog)
         == t["ifelse" := IfElseFn]
             ["abort" := AbortFn]
             ["assert" := AssertFn]
             ["concat" := ConcatFn]
             ["is_substring" := SubstringFn]
             ["stdout" := StdoutFn]
             ["sleep" := SleepFn]
             ["less_than_int" := LessThanIntFn]
             ["greater_than_int" := GreaterThanIntFn]
  {
    var t0 := t;
    ReplayBuiltinFrom(t0, 0);
    var t1 := t0["ifelse" := IfElseFn];
    ReplayBuiltinFrom(t1, 1);
    var t2 := t1["abort" := AbortFn];
    ReplayBuiltinFrom(t2, 2);
    var t3 := t2["assert" := AssertFn];
    ReplayBuiltinFrom(t3, 3);
    var t4 := t3["concat" := ConcatFn];
    ReplayBuiltinFrom(t4, 4);
    var t5 := t4["is_substring" := SubstringFn];
    ReplayBuiltinFrom(t5, 5);
    var t6 := t5["stdout" := StdoutFn];
    ReplayBuiltinFrom(t6, 6);
    var t7 := t6["sleep" := SleepFn];
    ReplayBuiltinFrom(t7, 7);
    var t8 := t7["less_than_int" := LessThanIntFn];
    ReplayBuiltinFrom(t8, 8);
    var t9 := t8["greater_than_int" := GreaterThanIntFn];
    assert BuiltinLog[9..] == [];
  }

  /**
   `RegisterBuiltins` is the replay of its nine registrations in source
   order, so its bindings are the last-write-wins lookups of `BuiltinLog`.
   */
  lemma RegisterBuiltinsIsReplay(t: Table)
    ensures RegisterBuiltins(t) == Replay(t, BuiltinLog)
  {
    ReplayBuiltinLog(t);
  }
}
