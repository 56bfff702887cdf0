/**
 * The decision logic of the desktop window (`PortSweeperApp`): the table of
 * listening ports, the text box for a port specification and the status line,
 * updated by `refresh`, `kill_from_input` and the per-row `kill_port`.
 *
 * The operating system is seen through parameters: `snapshot` is what
 * `listeners::get_all` reports when the table is refreshed, and `world(i)` is
 * what the `i`-th `kill_port` call of the batch observes.
 */
module Gui {
  import opened Wrappers
  import opened Text
  import opened PortSpec
  import opened Listing
  import opened Kill

  const EnterPortsMessage: string := "Enter port(s) to kill"
  const NoValidPortsMessage: string := "No valid ports"
  const FailureSeparator: string := "; "

  /** How long the status line stays up, in seconds. */
  const ClearDelay: real := 5.0

  function CountMessage(n: nat): string {
    ShowNat(n) + " port(s) terminated successfully!"
  }

  /**
   * The status line after a batch of kills and whether it reports success:
   * when nothing failed, the one result's message or the number of ports
   * killed; otherwise the failed results' messages joined by "; ".
   */
  function KillSummary(rs: seq<KillResult>): (bool, string) {
    var ok := Successes(rs);
    var fail := Failures(rs);
    if fail == [] then
      (true, if |ok| == 1 then ok[0].message else CountMessage(|ok|))
    else (false, Join(Messages(fail), FailureSeparator))
  }

  /** The status line reports success exactly when every kill succeeded. */
  lemma KillSummaryOkIff(rs: seq<KillResult>)
    ensures KillSummary(rs).0 <==> forall i :: 0 <= i < |rs| ==> rs[i].success
  {
    NoFailuresIff(rs);
  }

  /** For a batch of one, the status line is that kill's message and outcome. */
  lemma KillSummarySingle(r: KillResult)
    ensures KillSummary([r]) == (r.success, r.message)
  {
    assert [r][..0] == [];
  }

  /** When every kill of a batch other than a single one succeeded, the status line counts them. */
  lemma KillSummaryCount(rs: seq<KillResult>)
    requires |rs| != 1 && forall i :: 0 <= i < |rs| ==> rs[i].success
    ensures KillSummary(rs) == (true, CountMessage(|rs|))
  {
    NoFailuresIff(rs);
    FiltersPartition(rs);
  }

  /** A failed result appended to a batch that already failed adds "; " and its message to the status line. */
  lemma KillSummaryAppendFailure(rs: seq<KillResult>, r: KillResult)
    requires Failures(rs) != [] && !r.success
    ensures KillSummary(rs + [r]) == (false, KillSummary(rs).1 + FailureSeparator + r.message)
  {
    FailuresAppend(rs, [r]);
    assert [r][..0] == [];
    assert Failures(rs + [r]) == Failures(rs) + [r];
    MessagesAppend(Failures(rs), r);
    JoinSnoc(Messages(Failures(rs)), r.message, FailureSeparator);
  }

  /** A successful result appended to a batch that already failed leaves the status line as it was. */
  lemma KillSummaryAppendSuccess(rs: seq<KillResult>, r: KillResult)
    requires Failures(rs) != [] && r.success
    ensures KillSummary(rs + [r]) == KillSummary(rs)
  {
    FailuresAppend(rs, [r]);
    assert [r][..0] == [];
    assert Failures(rs + [r]) == Failures(rs);
  }

  /** The first failure of a batch alone is its own message. */
  lemma KillSummaryFirstFailure(rs: seq<KillResult>, r: KillResult)
    requires Failures(rs) == [] && !r.success
    ensures KillSummary(rs + [r]) == (false, r.message)
  {
    FailuresAppend(rs, [r]);
    assert [r][..0] == [];
    assert Failures(rs + [r]) == [r];
  }

  /**
   * The status line of a batch of kills reports success exactly when every
   * port's kill succeeds, and killing one port from the text box reports what
   * the row's button reports.
   */
  lemma KillSummaryOfBatch(ports: seq<U16>, world: nat -> OsView)
    ensures KillSummary(KillPorts(ports, world)).0 <==> forall i :: 0 <= i < |ports| ==> KillPort(ports[i], world(i)).0
    ensures |ports| == 1 ==> KillSummary(KillPorts(ports, world)) == KillPort(ports[0], world(0))
  {
    var rs := KillPorts(ports, world);
    KillSummaryOkIff(rs);
    BatchSucceedsIff(ports, world);
    if |ports| == 1 {
      assert rs == [rs[0]];
      KillSummarySingle(rs[0]);
    }
  }

  /**
   * The ports the text box asks to kill, or the status line that refuses it:
   * a blank box, a specification that does not parse, or one naming no port.
   */
  ghost function Requested(input: string): (r: Result<seq<U16>, string>)
    ensures r.Ok? ==> r.value != [] && ParseSpec(Trim(input)) == Ok(r.value)
  {
    var spec := Trim(input);
    if spec == [] then Err(EnterPortsMessage)
    else
      match ParseSpec(spec)
      case Err(e) => Err(e)
      case Ok(ps) => if ps == [] then Err(NoValidPortsMessage) else Ok(ps)
  }

  /** The three ways the text box is refused, and the ports it asks for otherwise. */
  lemma RequestedCases(input: string)
    ensures Trim(input) == [] ==> Requested(input) == Err(EnterPortsMessage)
    ensures Trim(input) != [] && ParseSpec(Trim(input)).Err? ==> Requested(input) == Err(ParseSpec(Trim(input)).error)
    ensures Trim(input) != [] && ParseSpec(Trim(input)) == Ok([]) ==> Requested(input) == Err(NoValidPortsMessage)
    ensures Requested(input).Ok? <==> Trim(input) != [] && ParseSpec(Trim(input)).Ok? && ParseSpec(Trim(input)).value != []
  {
  }

  /** The checks at the start of `kill_from_input`, on the trimmed text box. */
  method CheckInput(input: string) returns (r: Result<seq<U16>, string>)
    ensures r == Requested(input)
  {
    var spec := Trim(input);
    if spec == [] {
      return Err(EnterPortsMessage);
    }
    var parsed := ParsePortSpec(spec);
    if parsed.Ok? && parsed.value == [] {
      return Err(NoValidPortsMessage);
    }
    if parsed.Err? {
      return Err(parsed.error);
    }
    return parsed;
  }

  // ---------------------------------------------------------------------------
  // The window's state and its transitions

  /** The fields of `PortSweeperApp`, as one value. */
  datatype Window = Window(
    entries: seq<PortEntry>,
    portInput: string,
    statusMessage: string,
    statusOk: bool,
    statusClearAt: Option<real>)

  /** `refresh`: the listed rows replace the table; a listing error goes to the status line instead. */
  ghost function Refreshed(w: Window, snapshot: Result<seq<Listener>, string>): Window {
    match snapshot
    case Ok(snap) => w.(entries := Listed(snap))
    case Err(e) => w.(statusMessage := e, statusOk := false)
  }

  /** The window after a batch of kills with results `rs`, at time `now`. */
  ghost function AfterBatch(w: Window, rs: seq<KillResult>, now: real, snapshot: Result<seq<Listener>, string>): Window {
    var (ok, message) := KillSummary(rs);
    var shown := w.(statusMessage := message, statusOk := ok);
    var done := if ok then Refreshed(shown.(portInput := []), snapshot) else shown;
    done.(statusClearAt := Some(now + ClearDelay))
  }

  /** `kill_from_input` at time `now`, the `i`-th kill observing `world(i)`. */
  ghost function KilledFromInput(w: Window, now: real, world: nat -> OsView, snapshot: Result<seq<Listener>, string>): Window {
    match Requested(w.portInput)
    case Err(m) => w.(statusMessage := m, statusOk := false)
    case Ok(ports) => AfterBatch(w, KillPorts(ports, world), now, snapshot)
  }

  /** `kill_port` for the row of `port`: a batch of one, reported when it has a result. */
  ghost function KilledRow(w: Window, port: U16, now: real, world: nat -> OsView, snapshot: Result<seq<Listener>, string>): Window {
    var rs := KillPorts([port], world);
    if rs == [] then w
    else
      var shown := w.(statusMessage := rs[0].message, statusOk := rs[0].success);
      var done := if rs[0].success then Refreshed(shown, snapshot) else shown;
      done.(statusClearAt := Some(now + ClearDelay))
  }

  /**
   * Refreshing replaces the table by the listed rows and leaves the status
   * line; when listing fails the table stays and the status line shows the
   * error. The text box and the timer never change.
   */
  lemma RefreshedMeaning(w: Window, snapshot: Result<seq<Listener>, string>)
    ensures var r := Refreshed(w, snapshot);
      && r.portInput == w.portInput && r.statusClearAt == w.statusClearAt
      && (snapshot.Ok? ==> r.entries == Listed(snapshot.value) && r.statusMessage == w.statusMessage && r.statusOk == w.statusOk)
      && (snapshot.Err? ==> r.entries == w.entries && r.statusMessage == snapshot.error && !r.statusOk)
  {
  }

  /** A refused text box only changes the status line, to the refusal, and kills nothing. */
  lemma KilledFromInputRefused(w: Window, now: real, world: nat -> OsView, snapshot: Result<seq<Listener>, string>)
    requires Requested(w.portInput).Err?
    ensures KilledFromInput(w, now, world, snapshot) == w.(statusMessage := Requested(w.portInput).error, statusOk := false)
  {
  }

  /**
   * When every kill succeeds, the text box is cleared and the table is
   * refreshed; the status line reports success with the single kill's message
   * or the count of ports, unless listing fails and reports its error.
   */
  lemma KilledFromInputSucceeded(w: Window, now: real, world: nat -> OsView, snapshot: Result<seq<Listener>, string>)
    requires Requested(w.portInput).Ok?
    requires var ports := Requested(w.portInput).value;
      forall i :: 0 <= i < |ports| ==> Kill.KillPort(ports[i], world(i)).0
    ensures var ports, r := Requested(w.portInput).value, KilledFromInput(w, now, world, snapshot);
      && r.portInput == [] && r.statusClearAt == Some(now + ClearDelay)
      && (snapshot.Ok? ==> r.entries == Listed(snapshot.value) && r.statusOk)
      && (snapshot.Ok? && |ports| == 1 ==> r.statusMessage == TerminatedMessage(ports[0]))
      && (snapshot.Ok? && |ports| != 1 ==> r.statusMessage == CountMessage(|ports|))
      && (snapshot.Err? ==> r.entries == w.entries && r.statusMessage == snapshot.error && !r.statusOk)
  {
    BatchSucceeded(w, Requested(w.portInput).value, now, world, snapshot);
  }

  /** A batch of kills that all succeed, as above, for any list of ports. */
  lemma BatchSucceeded(w: Window, ports: seq<U16>, now: real, world: nat -> OsView, snapshot: Result<seq<Listener>, string>)
    requires forall i :: 0 <= i < |ports| ==> Kill.KillPort(ports[i], world(i)).0
    ensures var r := AfterBatch(w, KillPorts(ports, world), now, snapshot);
      && r.portInput == [] && r.statusClearAt == Some(now + ClearDelay)
      && (snapshot.Ok? ==> r.entries == Listed(snapshot.value) && r.statusOk)
      && (snapshot.Ok? && |ports| == 1 ==> r.statusMessage == TerminatedMessage(ports[0]))
      && (snapshot.Ok? && |ports| != 1 ==> r.statusMessage == CountMessage(|ports|))
      && (snapshot.Err? ==> r.entries == w.entries && r.statusMessage == snapshot.error && !r.statusOk)
  {
    var rs := KillPorts(ports, world);
    KillSummaryOfBatch(ports, world);
    if |ports| == 1 {
      KillPortSuccessIffMessage(ports[0], world(0));
    } else {
      KillSummaryCount(rs);
    }
  }

  /**
   * When some kill fails, the text box and the table stay and the status line
   * is the failed kills' messages, in order, joined by "; ".
   */
  lemma KilledFromInputFailed(w: Window, now: real, world: nat -> OsView, snapshot: Result<seq<Listener>, string>)
    requires Requested(w.portInput).Ok?
    requires var ports := Requested(w.portInput).value;
      exists i :: 0 <= i < |ports| && !Kill.KillPort(ports[i], world(i)).0
    ensures var rs, r := KillPorts(Requested(w.portInput).value, world), KilledFromInput(w, now, world, snapshot);
      && r == w.(statusMessage := Join(Messages(Failures(rs)), FailureSeparator), statusOk := false, statusClearAt := Some(now + ClearDelay))
      && Failures(rs) != [] && (forall f :: f in Failures(rs) ==> f in rs && !f.success)
  {
    var ports := Requested(w.portInput).value;
    var rs := KillPorts(ports, world);
    KillSummaryOfBatch(ports, world);
    NoFailuresIff(rs);
    FiltersSound(rs);
  }

  /**
   * A row's button always has a result to show: the status line is that
   * port's kill message and outcome, the table is refreshed only when the
   * kill succeeded, and the text box stays.
   */
  lemma KilledRowMeaning(w: Window, port: U16, now: real, world: nat -> OsView, snapshot: Result<seq<Listener>, string>)
    ensures var (success, message) := Kill.KillPort(port, world(0));
      var r := KilledRow(w, port, now, world, snapshot);
      && r.portInput == w.portInput && r.statusClearAt == Some(now + ClearDelay)
      && (!success ==> r == w.(statusMessage := message, statusOk := false, statusClearAt := Some(now + ClearDelay)))
      && (success && snapshot.Ok? ==> r.entries == Listed(snapshot.value) && r.statusMessage == message && r.statusOk)
      && (success && snapshot.Err? ==> r.entries == w.entries && r.statusMessage == snapshot.error && !r.statusOk)
  {
  }

  /** Killing one port from the text box shows what that port's row button shows. */
  lemma SingleInputIsRow(w: Window, now: real, world: nat -> OsView, snapshot: Result<seq<Listener>, string>)
    requires Requested(w.portInput).Ok? && |Requested(w.portInput).value| == 1
    ensures var port := Requested(w.portInput).value[0];
      var (r, s) := (KilledFromInput(w, now, world, snapshot), KilledRow(w, port, now, world, snapshot));
      r.statusMessage == s.statusMessage && r.statusOk == s.statusOk && r.entries == s.entries && r.statusClearAt == s.statusClearAt
  {
    var ports := Requested(w.portInput).value;
    KillSummaryOfBatch(ports, world);
    assert ports == [ports[0]];
  }

  class PortSweeperApp {
    var entries: seq<PortEntry>
    var portInput: string
    var statusMessage: string
    var statusOk: bool
    var statusClearAt: Option<real>

    /** The window's fields as one value. */
    function View(): Window
      reads this
    {
      Window(entries, portInput, statusMessage, statusOk, statusClearAt)
    }

    /** `Default::default()`: no rows, an empty text box, no status. */
    constructor ()
      ensures View() == Window([], [], [], false, None)
    {
      entries := [];
      portInput := [];
      statusMessage := [];
      statusOk := false;
      statusClearAt := None;
    }

    /** `refresh`, listing from `snapshot`. */
    method Refresh(snapshot: Result<seq<Listener>, string>)
      modifies this
      ensures View() == Refreshed(old(View()), snapshot)
    {
      var listed := ListPorts(snapshot);
      match listed
      case Ok(e) =>
        entries := e;
      case Err(e) =>
        statusMessage := e;
        statusOk := false;
    }

    /** `kill_from_input` at time `now`. */
    method KillFromInput(now: real, world: nat -> OsView, snapshot: Result<seq<Listener>, string>)
      modifies this
      ensures View() == KilledFromInput(old(View()), now, world, snapshot)
    {
      ghost var w := View();
      var request := CheckInput(portInput);
      if request.Err? {
        Refuse(request.error);
        return;
      }
      ShowBatch(KillPorts(request.value, world), now, snapshot);
      assert View() == AfterBatch(w, KillPorts(request.value, world), now, snapshot);
    }

    /** The status line of a refused text box. */
    method Refuse(message: string)
      modifies this
      ensures View() == old(View()).(statusMessage := message, statusOk := false)
    {
      statusMessage := message;
      statusOk := false;
    }

    /** The end of `kill_from_input`: report the batch's results at time `now`. */
    method ShowBatch(results: seq<KillResult>, now: real, snapshot: Result<seq<Listener>, string>)
      modifies this
      ensures View() == AfterBatch(old(View()), results, now, snapshot)
    {
      var ok := Successes(results);
      var fail := Failures(results);
      if fail == [] {
        statusMessage := if |ok| == 1 then ok[0].message else CountMessage(|ok|);
        statusOk := true;
        portInput := [];
        Refresh(snapshot);
      } else {
        statusMessage := Join(Messages(fail), FailureSeparator);
        statusOk := false;
      }
      statusClearAt := Some(now + ClearDelay);
    }

    /** `kill_port`, the button of the row of `port`, at time `now`. */
    method KillPort(port: U16, now: real, world: nat -> OsView, snapshot: Result<seq<Listener>, string>)
      modifies this
      ensures View() == KilledRow(old(View()), port, now, world, snapshot)
    {
      var results := KillPorts([port], world);
      if results != [] {
        var r := results[0];
        statusMessage := r.message;
        statusOk := r.success;
        if r.success {
          Refresh(snapshot);
        }
        statusClearAt := Some(now + ClearDelay);
      }
    }
  }
}
