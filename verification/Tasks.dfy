// The identity of a task, under which the duplicate check remembers it.
module Tasks {
  import opened Entities

  // TraceProcessingTask.GetID
  function TaskId(t: Trace, pluginKey: string): string {
    t.value + ":" + pluginKey
  }

  // The longer value is the shorter one, a colon and x; x has moved into the plugin's name.
  ghost predicate Overlaps(value: string, p: string, longer: string, q: string) {
    exists x :: longer == value + ":" + x && p == x + ":" + q
  }

  // The id leaves out the trace's type, and a colon may stand in the value or in the name: two
  // tasks share an id exactly when value and plugin agree or overlap around a colon.
  lemma TaskIdsCollide(t: Trace, p: string, u: Trace, q: string)
    ensures TaskId(t, p) == TaskId(u, q) <==>
            (t.value == u.value && p == q) || Overlaps(t.value, p, u.value, q) || Overlaps(u.value, q, t.value, p)
  {
    if TaskId(t, p) == TaskId(u, q) {
      if |t.value| <= |u.value| {
        SplitId(t.value, p, u.value, q);
      } else {
        SplitId(u.value, q, t.value, p);
      }
    }
    if x :| u.value == t.value + ":" + x && p == x + ":" + q {
      assert t.value + ":" + (x + ":" + q) == (t.value + ":" + x) + ":" + q;
    }
    if x :| t.value == u.value + ":" + x && q == x + ":" + p {
      assert u.value + ":" + (x + ":" + p) == (u.value + ":" + x) + ":" + p;
    }
  }

  lemma SplitId(a: string, p: string, b: string, q: string)
    requires a + ":" + p == b + ":" + q && |a| <= |b|
    ensures (a == b && p == q) || Overlaps(a, p, b, q)
  {
    var id := a + ":" + p;
    assert id[..|a|] == a && id[..|b|] == b && id[|a|] == ':';
    assert p == id[|a| + 1..] && q == id[|b| + 1..];
    if |a| < |b| {
      var x := b[|a| + 1..];
      assert b == a + ":" + x;
      assert p == x + ":" + q;
    }
  }

  // So for plugin names without a colon, as all of them are, the type alone is ignored.
  lemma TaskIdIgnoresType(t: Trace, p: string, u: Trace, q: string)
    requires ':' !in p && ':' !in q
    ensures TaskId(t, p) == TaskId(u, q) <==> t.value == u.value && p == q
  {
    TaskIdsCollide(t, p, u, q);
    assert forall x: string, y: string :: ':' in x + ":" + y;
  }
}
