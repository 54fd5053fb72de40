/** Rows of the activity log and the order in which they are kept (internal/server/activity_store.go). */
module Activity {
  import opened Bytes

  datatype Severity = Debug | Info | Warning | Error

  function SeverityName(s: Severity): string {
    match s
    case Debug => "debug"
    case Info => "info"
    case Warning => "warning"
    case Error => "error"
  }

  datatype Event = Event(id: nat, occurred: int, severity: Severity, category: string,
                         scopeUser: seq<byte>, clients: set<seq<byte>>, tunnels: set<seq<byte>>)

  /** AUTOINCREMENT ids: positive, unique, and here also the order of the rows. */
  predicate Table(t: seq<Event>) {
    Ascending(t) && forall i :: 0 <= i < |t| ==> t[i].id > 0
  }

  predicate Ascending(s: seq<Event>) {
    forall i, j :: 0 <= i < j < |s| ==> s[i].id < s[j].id
  }

  function Reversed(s: seq<Event>): seq<Event> {
    seq(|s|, i requires 0 <= i < |s| => s[|s| - 1 - i])
  }

  lemma ReversedFacts(s: seq<Event>)
    ensures |Reversed(s)| == |s| && Reversed(Reversed(s)) == s
    ensures forall e :: e in Reversed(s) <==> e in s
  {
    forall e | e in s ensures e in Reversed(s) {
      var i :| 0 <= i < |s| && s[i] == e;
      assert Reversed(s)[|s| - 1 - i] == e;
    }
  }

  lemma HasElement(s: seq<Event>)
    requires s != []
    ensures exists e :: e in s
  {
    assert s[0] in s;
  }

  /** An ascending sequence is determined by its elements. */
  lemma {:induction false} AscendingUnique(a: seq<Event>, b: seq<Event>)
    requires Ascending(a) && Ascending(b)
    requires forall e :: e in a <==> e in b
    ensures a == b
  {
    if a != [] && b != [] {
      var m, n := |a| - 1, |b| - 1;
      SameLast(a, b);
      forall e ensures e in a[..m] <==> e in b[..n] {
        InFront(a, e);
        InFront(b, e);
      }
      AscendingUnique(a[..m], b[..n]);
      assert a == a[..m] + [a[m]] && b == b[..n] + [b[n]];
    } else if a != [] {
      HasElement(a);
    } else if b != [] {
      HasElement(b);
    }
  }

  lemma SameLast(a: seq<Event>, b: seq<Event>)
    requires Ascending(a) && Ascending(b) && a != [] && b != []
    requires forall e :: e in a <==> e in b
    ensures a[|a| - 1] == b[|b| - 1]
  {
    LastIsGreatest(a);
    LastIsGreatest(b);
    assert a[|a| - 1] in b && b[|b| - 1] in a;
  }

  lemma LastIsGreatest(s: seq<Event>)
    requires Ascending(s) && s != []
    ensures forall e :: e in s && e != s[|s| - 1] ==> e.id < s[|s| - 1].id
  {
  }

  lemma InFront(s: seq<Event>, e: Event)
    requires Ascending(s) && s != []
    ensures e in s[..|s| - 1] <==> e in s && e != s[|s| - 1]
  {
    if e in s && e != s[|s| - 1] {
      var i :| 0 <= i < |s| && s[i] == e;
      assert s[..|s| - 1][i] == e;
    }
  }
}
