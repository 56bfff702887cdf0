/**
 * The command-line front end's decision logic: `truncate`, which shortens a
 * process name for the port table, and `run_kill`, which kills the ports of a
 * specification and reports how many failed.
 */
module Cli {
  import opened Wrappers
  import opened Text
  import opened PortSpec
  import opened Kill

  const Ellipsis: char := '\U{2026}'
  const NoPortsError: string := "No ports specified"

  function FailedError(failed: nat): string {
    ShowNat(failed) + " port(s) failed"
  }

  /** `usize::saturating_sub(1)`. */
  function SaturatingPred(n: nat): nat {
    if n == 0 then 0 else n - 1
  }

  // ---------------------------------------------------------------------------
  // truncate

  /**
   * `truncate` as written: the trimmed text when its UTF-8 length is at most
   * `max`, otherwise its first `max - 1` bytes (saturating) and an ellipsis.
   * None where the cut falls inside a character, where `&s[..k]` panics.
   */
  function TruncateAsWritten(s: string, max: nat): Option<string> {
    var t := Trim(s);
    if ByteLen(t) <= max then Some(t)
    else
      match CharIndexAt(t, SaturatingPred(max))
      case None => None
      case Some(i) => Some(t[..i] + [Ellipsis])
  }

  /** `truncate` cutting at the last character boundary at or before byte `max - 1`. */
  function Truncate(s: string, max: nat): string {
    var t := Trim(s);
    if ByteLen(t) <= max then t
    else t[..FloorCharIndex(t, SaturatingPred(max))] + [Ellipsis]
  }

  /** A text that fits is returned trimmed and unchanged, and truncating it again changes nothing. */
  lemma TruncateShort(s: string, max: nat)
    requires ByteLen(Trim(s)) <= max
    ensures Truncate(s, max) == Trim(s)
    ensures Truncate(Truncate(s, max), max) == Truncate(s, max)
  {
    TrimIdempotent(s);
  }

  /**
   * A text that does not fit becomes its longest prefix of at most `max - 1`
   * bytes (none when `max` is 0) followed by the ellipsis.
   */
  lemma TruncateLong(s: string, max: nat)
    requires ByteLen(Trim(s)) > max
    ensures var t, r := Trim(s), Truncate(s, max);
      && r != [] && r[|r| - 1] == Ellipsis
      && |r| - 1 <= |t| && r[..|r| - 1] == t[..|r| - 1]
      && ByteLen(r[..|r| - 1]) <= SaturatingPred(max)
      && (|r| - 1 < |t| ==> ByteLen(t[..|r|]) > SaturatingPred(max))
  {
    var t := Trim(s);
    var i := FloorCharIndex(t, SaturatingPred(max));
    var r := Truncate(s, max);
    assert r == t[..i] + [Ellipsis];
    assert r[..|r| - 1] == t[..i];
  }

  /** The result is never longer than `max` characters, except that `max` 0 still leaves the ellipsis. */
  lemma TruncateFits(s: string, max: nat)
    ensures |Truncate(s, max)| <= if max == 0 then 1 else max
  {
    var t := Trim(s);
    if ByteLen(t) <= max {
      ByteLenAtLeastLength(t);
    } else {
      var i := FloorCharIndex(t, SaturatingPred(max));
      ByteLenAtLeastLength(t[..i]);
    }
  }

  /** With `max` 0 every non-blank text becomes the ellipsis alone. */
  lemma TruncateZero(s: string)
    requires Trim(s) != []
    ensures Truncate(s, 0) == [Ellipsis]
    ensures TruncateAsWritten(s, 0) == Some([Ellipsis])
  {
    var t := Trim(s);
    assert ByteLen(t) >= Utf8Width(t[0]);
    assert t[..0] == [];
  }

  /** Where the source does not panic it returns what the corrected cut returns. */
  lemma TruncateAgrees(s: string, max: nat)
    requires TruncateAsWritten(s, max).Some?
    ensures TruncateAsWritten(s, max).value == Truncate(s, max)
  {
    var t := Trim(s);
    if ByteLen(t) > max {
      CharIndexAtIsFloor(t, SaturatingPred(max));
    }
  }

  /** ASCII text never panics. */
  lemma TruncateAsciiSafe(s: string, max: nat)
    requires IsAscii(Trim(s))
    ensures TruncateAsWritten(s, max) == Some(Truncate(s, max))
  {
    var t := Trim(s);
    ByteLenAscii(t);
    if ByteLen(t) > max {
      CharIndexAtAscii(t, SaturatingPred(max));
      CharIndexAtIsFloor(t, SaturatingPred(max));
    }
  }

  /**
   * The cut at byte `max - 1` can fall inside a character: an ASCII start `a`,
   * then a character of two or more bytes, then more text, truncated to
   * |a| + 2 (for instance a 22-character name followed by 'é' at the table's
   * width 24). The source panics there; the corrected cut keeps `a`.
   */
  lemma TruncateMidCharacter(a: string, c: char, b: string)
    requires IsAscii(a) && a != [] && !IsWhitespace(a[0])
    requires Utf8Width(c) >= 2 && b != [] && !IsWhitespace(b[|b| - 1])
    ensures TruncateAsWritten(a + [c] + b, |a| + 2) == None
    ensures Truncate(a + [c] + b, |a| + 2) == a + [Ellipsis]
  {
    var t := a + [c] + b;
    assert t[0] == a[0] && t[|t| - 1] == b[|b| - 1];
    TrimOfTrimmed(t);
    PrefixBytes(a, c, b);
    assert t[..|t|] == t;
    var k := |a| + 1;
    assert ByteLen(t) > |a| + 2;
    assert CharIndexAt(t, k).None?;
    var i := FloorCharIndex(t, k);
    assert i == |a|;
    assert t[..|a|] == a;
  }

  /** The byte lengths of the prefixes of `a + [c] + b`: the ASCII prefixes count their characters, the rest exceed |a| + 1. */
  lemma PrefixBytes(a: string, c: char, b: string)
    requires IsAscii(a) && Utf8Width(c) >= 2 && b != []
    ensures var t := a + [c] + b;
      forall i :: 0 <= i <= |t| ==> if i <= |a| then ByteLen(t[..i]) == i else ByteLen(t[..i]) >= |a| + 2 + (if i == |t| then 1 else 0)
  {
    var t := a + [c] + b;
    forall i | 0 <= i <= |t|
      ensures if i <= |a| then ByteLen(t[..i]) == i else ByteLen(t[..i]) >= |a| + 2 + (if i == |t| then 1 else 0)
    {
      if i <= |a| {
        assert t[..i] == a[..i];
        assert IsAscii(a[..i]);
        ByteLenAscii(a[..i]);
      } else {
        var rest := t[|a| + 1..i];
        assert t[..i] == a + ([c] + rest);
        ByteLenAppend(a, [c] + rest);
        ByteLenAppend([c], rest);
        ByteLenAscii(a);
        assert ByteLen([c]) == Utf8Width(c);
        if i == |t| {
          assert rest == b;
          ByteLenAtLeastLength(b);
        }
      }
    }
  }

  // ---------------------------------------------------------------------------
  // run_kill

  /**
   * `run_kill`: parse the specification, refuse an empty list, kill the ports
   * (call `i` observing `world(i)`), print each success on standard output and
   * each failure on standard error, and fail when any kill failed.
   */
  method RunKill(spec: string, world: nat -> OsView) returns (r: Result<(), string>, stdout: seq<string>, stderr: seq<string>)
    ensures ParseSpec(spec).Err? ==> r == Err(ParseSpec(spec).error) && stdout == [] && stderr == []
    ensures ParseSpec(spec) == Ok([]) ==> r == Err(NoPortsError) && stdout == [] && stderr == []
    ensures ParseSpec(spec).Ok? && ParseSpec(spec).value != [] ==>
      var rs := KillPorts(ParseSpec(spec).value, world);
      && stdout == Messages(Successes(rs))
      && stderr == Messages(Failures(rs))
      && r == if |Failures(rs)| > 0 then Err(FailedError(|Failures(rs)|)) else Ok(())
  {
    var ports := ParsePortSpec(spec);
    if ports.Err? {
      return Err(ports.error), [], [];
    }
    if ports.value == [] {
      return Err(NoPortsError), [], [];
    }
    var results := KillPorts(ports.value, world);
    var failed;
    failed, stdout, stderr := Report(results);
    if failed > 0 {
      return Err(FailedError(failed)), stdout, stderr;
    }
    return Ok(()), stdout, stderr;
  }

  /** The reporting loop of `run_kill`, counting the failures in `failed`. */
  method Report(results: seq<KillResult>) returns (failed: nat, stdout: seq<string>, stderr: seq<string>)
    ensures failed == |Failures(results)|
    ensures stdout == Messages(Successes(results))
    ensures stderr == Messages(Failures(results))
  {
    failed, stdout, stderr := 0, [], [];
    for i := 0 to |results|
      invariant failed == |Failures(results[..i])|
      invariant stdout == Messages(Successes(results[..i]))
      invariant stderr == Messages(Failures(results[..i]))
    {
      ReportStep(results, i);
      if results[i].success {
        stdout := stdout + [results[i].message];
      } else {
        stderr := stderr + [results[i].message];
        failed := failed + 1;
      }
    }
    assert results[..|results|] == results;
  }

  /** One more result adds its message to exactly one of the two outputs, and counts when it failed. */
  lemma ReportStep(rs: seq<KillResult>, i: nat)
    requires i < |rs|
    ensures Messages(Successes(rs[..i + 1])) == Messages(Successes(rs[..i])) + if rs[i].success then [rs[i].message] else []
    ensures Messages(Failures(rs[..i + 1])) == Messages(Failures(rs[..i])) + if rs[i].success then [] else [rs[i].message]
    ensures |Failures(rs[..i + 1])| == |Failures(rs[..i])| + if rs[i].success then 0 else 1
  {
    assert rs[..i + 1][..i] == rs[..i];
    if rs[i].success {
      MessagesAppend(Successes(rs[..i]), rs[i]);
    } else {
      MessagesAppend(Failures(rs[..i]), rs[i]);
    }
  }
}
