// The vocabulary shared by the scanner: traces, discoveries, and their text keys.
module Entities {
  datatype Option<+T> = None | Some(value: T)

  datatype Result<+T> = Ok(value: T) | Err(message: string)

  // The trace types are the fixed constants of entities.go, none of which holds a NUL.
  type TraceType = s: string | '\0' !in s witness ""

  datatype Trace = Trace(value: string, kind: TraceType)

  datatype Discovery = Discovery(parent: Trace, pluginName: string, child: Trace)

  // Key under which a trace is remembered in an in-memory map.
  function TraceKey(t: Trace): string {
    t.kind + "\0" + t.value
  }

  // The first NUL of a key ends the type, so no two traces share a key.
  lemma TraceKeyInjective(a: Trace, b: Trace)
    requires TraceKey(a) == TraceKey(b)
    ensures a == b
  {
    var key := TraceKey(a);
    assert key[|a.kind|] == '\0' && key[|b.kind|] == '\0';
    assert forall i :: 0 <= i < |a.kind| ==> key[i] == a.kind[i];
    assert forall i :: 0 <= i < |b.kind| ==> key[i] == b.kind[i];
    assert |a.kind| == |b.kind|;
    assert a.kind == key[..|a.kind|] == b.kind;
    assert a.value == key[|a.kind| + 1..] == b.value;
  }
}
