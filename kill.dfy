/**
 * Killing what listens on a port (`kill_port`, `kill_ports`). The operating
 * system is an oracle: what `get_process_by_port` resolves the port to, which
 * pids the refreshed process table holds, and whether the kill signal is
 * delivered.
 */
module Kill {
  import opened Wrappers
  import opened Text

  /** What one `kill_port` call observes of the system. */
  datatype OsView = OsView(resolve: Result<U32, string>, processes: set<U32>, killDelivered: bool)

  /** `KillResult`: the outcome for one port. */
  datatype KillResult = KillResult(port: U16, success: bool, message: string)

  /** "Port N", the start of every message about port N. */
  function PortLabel(port: U16): string {
    "Port " + ShowNat(port)
  }

  function TerminatedMessage(port: U16): string {
    PortLabel(port) + " terminated successfully!"
  }

  function UnresolvedMessage(port: U16, e: string): string {
    PortLabel(port) + ": " + e
  }

  function MissingMessage(port: U16, pid: U32): string {
    PortLabel(port) + ": process " + ShowNat(pid) + " not found"
  }

  function RefusedMessage(port: U16): string {
    PortLabel(port) + ": " + "failed to kill process (try running with elevated permissions)"
  }

  /**
   * `kill_port`: resolve the port to a process, look the pid up in the process
   * table, send the kill. The first step that fails decides the message.
   */
  function KillPort(port: U16, os: OsView): (bool, string) {
    match os.resolve
    case Err(e) => (false, UnresolvedMessage(port, e))
    case Ok(pid) =>
      if pid !in os.processes then (false, MissingMessage(port, pid))
      else if os.killDelivered then (true, TerminatedMessage(port))
      else (false, RefusedMessage(port))
  }

  /** The result `kill_port` builds for `port`. */
  function ResultOf(port: U16, os: OsView): KillResult {
    var (success, message) := KillPort(port, os);
    KillResult(port, success, message)
  }

  /** `f` applied to each element in order, call `i` observing `world(i)`. */
  function MapObserving<X, V, R>(xs: seq<X>, world: nat -> V, f: (X, V) -> R): seq<R> {
    seq(|xs|, i requires 0 <= i < |xs| => f(xs[i], world(i)))
  }

  /** Mapping over a concatenation maps the two parts one after the other, the second observing the later calls. */
  lemma MapObservingAppend<X, V, R>(a: seq<X>, b: seq<X>, world: nat -> V, f: (X, V) -> R)
    ensures MapObserving(a + b, world, f) == MapObserving(a, world, f) + MapObserving(b, (i: nat) => world(|a| + i), f)
  {
    var later: nat -> V := (i: nat) => world(|a| + i);
    var lhs := MapObserving(a + b, world, f);
    var front := MapObserving(a, world, f);
    var back := MapObserving(b, later, f);
    forall i | 0 <= i < |lhs| ensures lhs[i] == (front + back)[i] {
      if i < |a| {
        assert (a + b)[i] == a[i];
        assert (front + back)[i] == front[i];
      } else {
        var j := i - |a|;
        assert (a + b)[i] == b[j];
        assert later(j) == world(i);
        assert (front + back)[i] == back[j];
      }
    }
    assert lhs == front + back;
  }

  /** `kill_ports`: one result per port, in order; call `i` observes `world(i)`. */
  function KillPorts(ports: seq<U16>, world: nat -> OsView): (rs: seq<KillResult>)
    ensures |rs| == |ports|
    ensures forall i :: 0 <= i < |ports| ==> rs[i] == ResultOf(ports[i], world(i))
  {
    MapObserving(ports, world, ResultOf)
  }

  // ---------------------------------------------------------------------------
  // What the outcomes say

  /** A kill succeeds exactly when the port resolves to a pid in the process table and the kill is delivered. */
  lemma KillPortSucceeds(port: U16, os: OsView)
    ensures KillPort(port, os).0 <==> os.resolve.Ok? && os.resolve.value in os.processes && os.killDelivered
  {
  }

  /**
   * Every message is "Port N" for its own port followed by more text, which
   * starts with a space for the success message and with a colon for each failure.
   */
  lemma KillPortTail(port: U16, os: OsView) returns (tail: string)
    ensures KillPort(port, os).1 == PortLabel(port) + tail && tail != []
    ensures KillPort(port, os).0 ==> tail[0] == ' '
    ensures !KillPort(port, os).0 ==> tail[0] == ':'
  {
    match os.resolve
    case Err(e) =>
      tail := ": " + e;
      ColonTail(PortLabel(port), ": ", e);
    case Ok(pid) =>
      if pid !in os.processes {
        tail := ": process " + ShowNat(pid) + " not found";
        ColonTail(PortLabel(port), ": process " + ShowNat(pid), " not found");
      } else if os.killDelivered {
        tail := " terminated successfully!";
      } else {
        tail := ": " + "failed to kill process (try running with elevated permissions)";
        ColonTail(PortLabel(port), ": ", "failed to kill process (try running with elevated permissions)");
      }
  }

  /** A label followed by a text that starts with a colon. */
  lemma ColonTail(start: string, a: string, b: string)
    requires a != [] && a[0] == ':'
    ensures start + a + b == start + (a + b) && (a + b)[0] == ':'
  {
  }

  /** Every message starts with "Port N" for its own port. */
  lemma KillPortLabelled(port: U16, os: OsView)
    ensures var m := KillPort(port, os).1;
      |PortLabel(port)| < |m| && m[..|PortLabel(port)|] == PortLabel(port)
  {
    var tail := KillPortTail(port, os);
    assert (PortLabel(port) + tail)[..|PortLabel(port)|] == PortLabel(port);
  }

  /**
   * The success message is the only one a success carries and no failure
   * carries it: after "Port N" it continues with a space, every failure with
   * a colon.
   */
  lemma KillPortSuccessIffMessage(port: U16, os: OsView)
    ensures KillPort(port, os).0 <==> KillPort(port, os).1 == TerminatedMessage(port)
  {
    var tail := KillPortTail(port, os);
    var k := |PortLabel(port)|;
    assert TerminatedMessage(port)[k] == ' ';
    assert KillPort(port, os).1[k] == tail[0];
  }

  /** The port can be read back from any message: different ports never give the same text. */
  lemma KillPortMessageNamesPort(p: U16, q: U16, os: OsView, os': OsView)
    requires KillPort(p, os).1 == KillPort(q, os').1
    ensures p == q
  {
    var tp := KillPortTail(p, os);
    var tq := KillPortTail(q, os');
    assert "Port " + ShowNat(p) + tp == "Port " + ShowNat(q) + tq;
    DigitRun("Port ", ShowNat(p), tp, ShowNat(q), tq);
    ShowNatInjective(p, q);
  }

  /** The run of digits a text starts with. */
  function LeadingDigits(s: string): (r: string)
    ensures AllDigits(r)
  {
    if s != [] && IsDigit(s[0]) then [s[0]] + LeadingDigits(s[1..]) else []
  }

  /** Digits followed by a non-digit are exactly the leading digits. */
  lemma {:induction false} LeadingDigitsOf(a: string, x: string)
    requires AllDigits(a) && x != [] && !IsDigit(x[0])
    ensures LeadingDigits(a + x) == a
  {
    if a != [] {
      assert (a + x)[0] == a[0] && (a + x)[1..] == a[1..] + x;
      LeadingDigitsOf(a[1..], x);
      assert a == [a[0]] + a[1..];
    } else {
      assert a + x == x;
    }
  }

  /** Two ways of writing a text as a word, a run of digits and a non-digit have the same digits. */
  lemma DigitRun(w: string, a: string, x: string, b: string, y: string)
    requires AllDigits(a) && AllDigits(b) && x != [] && y != [] && !IsDigit(x[0]) && !IsDigit(y[0])
    requires w + a + x == w + b + y
    ensures a == b
  {
    var s := w + a + x;
    assert s[|w|..] == a + x;
    assert (w + b + y)[|w|..] == b + y;
    LeadingDigitsOf(a, x);
    LeadingDigitsOf(b, y);
  }

  /** Each result of a batch succeeds exactly when its message is the success message for its port. */
  lemma KillPortsMessages(ports: seq<U16>, world: nat -> OsView)
    ensures forall i :: 0 <= i < |ports| ==>
      (KillPorts(ports, world)[i].success <==> KillPorts(ports, world)[i].message == TerminatedMessage(ports[i]))
  {
    var rs := KillPorts(ports, world);
    forall i | 0 <= i < |ports|
      ensures rs[i].success <==> rs[i].message == TerminatedMessage(ports[i])
    {
      KillPortSuccessIffMessage(ports[i], world(i));
    }
  }

  /** A batch over a concatenation is the two batches one after the other, the second observing the later calls. */
  lemma KillPortsAppend(a: seq<U16>, b: seq<U16>, world: nat -> OsView)
    ensures KillPorts(a + b, world) == KillPorts(a, world) + KillPorts(b, (i: nat) => world(|a| + i))
  {
    MapObservingAppend(a, b, world, ResultOf);
  }

  // ---------------------------------------------------------------------------
  // Sorting results into successes and failures

  /** The failed results, in order (`filter(|r| !r.success)`). */
  function Failures(rs: seq<KillResult>): (fs: seq<KillResult>)
    ensures |fs| <= |rs|
  {
    if rs == [] then []
    else
      var last := rs[|rs| - 1];
      Failures(rs[..|rs| - 1]) + if last.success then [] else [last]
  }

  /** The successful results, in order (`filter(|r| r.success)`). */
  function Successes(rs: seq<KillResult>): (ss: seq<KillResult>)
    ensures |ss| <= |rs|
  {
    if rs == [] then []
    else
      var last := rs[|rs| - 1];
      Successes(rs[..|rs| - 1]) + if last.success then [last] else []
  }

  /** The messages of some results, in order. */
  function Messages(rs: seq<KillResult>): seq<string> {
    seq(|rs|, i requires 0 <= i < |rs| => rs[i].message)
  }

  /** One more result adds its message at the end. */
  lemma MessagesAppend(rs: seq<KillResult>, r: KillResult)
    ensures Messages(rs + [r]) == Messages(rs) + [r.message]
  {
  }

  /** Filtering keeps order: the failures of a concatenation are the two parts' failures. */
  lemma {:induction false} FailuresAppend(a: seq<KillResult>, b: seq<KillResult>)
    ensures Failures(a + b) == Failures(a) + Failures(b)
    decreases |b|
  {
    if b == [] {
      assert a + b == a;
    } else {
      var n := |b| - 1;
      var last := if b[n].success then [] else [b[n]];
      assert (a + b)[..|a + b| - 1] == a + b[..n];
      assert (a + b)[|a + b| - 1] == b[n];
      assert Failures(a + b) == Failures(a + b[..n]) + last;
      FailuresAppend(a, b[..n]);
      assert Failures(b) == Failures(b[..n]) + last;
    }
  }

  /** The same for the successes. */
  lemma {:induction false} SuccessesAppend(a: seq<KillResult>, b: seq<KillResult>)
    ensures Successes(a + b) == Successes(a) + Successes(b)
    decreases |b|
  {
    if b == [] {
      assert a + b == a;
    } else {
      var n := |b| - 1;
      var last := if b[n].success then [b[n]] else [];
      assert (a + b)[..|a + b| - 1] == a + b[..n];
      assert (a + b)[|a + b| - 1] == b[n];
      assert Successes(a + b) == Successes(a + b[..n]) + last;
      SuccessesAppend(a, b[..n]);
      assert Successes(b) == Successes(b[..n]) + last;
    }
  }

  /** The failures are failed results of the batch, and the successes successful ones. */
  lemma {:induction false} FiltersSound(rs: seq<KillResult>)
    ensures forall r :: r in Failures(rs) ==> r in rs && !r.success
    ensures forall r :: r in Successes(rs) ==> r in rs && r.success
  {
    if rs != [] {
      var n := |rs| - 1;
      FiltersSound(rs[..n]);
      assert forall r :: r in rs[..n] ==> r in rs;
    }
  }

  /** Every result is either a success or a failure: the two filters together hold them all. */
  lemma {:induction false} FiltersPartition(rs: seq<KillResult>)
    ensures |Failures(rs)| + |Successes(rs)| == |rs|
  {
    if rs != [] {
      FiltersPartition(rs[..|rs| - 1]);
    }
  }

  /** There are no failures exactly when every result succeeded. */
  lemma {:induction false} NoFailuresIff(rs: seq<KillResult>)
    ensures Failures(rs) == [] <==> forall i :: 0 <= i < |rs| ==> rs[i].success
  {
    if rs != [] {
      var n := |rs| - 1;
      NoFailuresIff(rs[..n]);
      assert forall i :: 0 <= i < n ==> rs[..n][i] == rs[i];
    }
  }

  /** Each failed result is among the failures, and each successful one among the successes. */
  lemma {:induction false} FiltersComplete(rs: seq<KillResult>)
    ensures forall i :: 0 <= i < |rs| && !rs[i].success ==> rs[i] in Failures(rs)
    ensures forall i :: 0 <= i < |rs| && rs[i].success ==> rs[i] in Successes(rs)
  {
    if rs != [] {
      var n := |rs| - 1;
      FiltersComplete(rs[..n]);
      assert forall i :: 0 <= i < n ==> rs[..n][i] == rs[i];
    }
  }

  /** A batch has no failures exactly when every port's kill succeeds. */
  lemma BatchSucceedsIff(ports: seq<U16>, world: nat -> OsView)
    ensures Failures(KillPorts(ports, world)) == [] <==> forall i :: 0 <= i < |ports| ==> KillPort(ports[i], world(i)).0
  {
    var rs := KillPorts(ports, world);
    NoFailuresIff(rs);
    assert forall i :: 0 <= i < |rs| ==> rs[i].success == KillPort(ports[i], world(i)).0;
  }
}
