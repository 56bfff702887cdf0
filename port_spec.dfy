/**
 * The port-specification parser (`parse_port_spec`): text such as
 * "3000, 8000,9000-9010" becomes the ascending, duplicate-free list of the
 * ports it names, or an error message.
 */
module PortSpec {
  import opened Wrappers
  import opened Text
  import opened Sorting

  const ZeroBoundError: string := "ports must be between 1 and 65535"
  const ZeroPortError: string := "port 0 is not valid"

  function InvalidPortError(t: string): string {
    "invalid port: " + t
  }

  function InvalidRangeError(start: U16, end: U16): string {
    "invalid range: " + ShowNat(start) + " > " + ShowNat(end)
  }

  /** Ports are ordered by their value. */
  function PortKey(p: U16): int {
    p
  }

  predicate Between(start: int, end: int, p: int) {
    start <= p <= end
  }

  /** The ports of the inclusive range `start..=end`. */
  function PortRange(start: U16, end: U16): set<U16> {
    set p: U16 | Between(start, end, p)
  }

  /**
   * The ports one comma-separated token names, the token already trimmed.
   * An empty token names none; a token with a hyphen is a range split at its
   * first hyphen; any other token is a single port.
   */
  function TokenPorts(part: string): (r: Result<set<U16>, string>)
  {
    if part == [] then Ok({})
    else
      match SplitOnce(part, '-')
      case Some((a, b)) => RangePorts(a, b)
      case None => SinglePort(part)
  }

  /**
   * The range `a-b`. The checks run in the source's order: the start parses,
   * the end parses, neither bound is 0, start <= end. The messages quote the
   * bound as written, before trimming.
   */
  function RangePorts(a: string, b: string): (r: Result<set<U16>, string>)
  {
    RangeOf(a, b, ParseU16(Trim(a)), ParseU16(Trim(b)))
  }

  /** The checks of a range whose sides `a` and `b` parsed as `start` and `end`. */
  function RangeOf(a: string, b: string, start: Option<U16>, end: Option<U16>): (r: Result<set<U16>, string>)
  {
    if start.None? then Err(InvalidPortError(a))
    else if end.None? then Err(InvalidPortError(b))
    else if start.value == 0 || end.value == 0 then Err(ZeroBoundError)
    else if start.value > end.value then Err(InvalidRangeError(start.value, end.value))
    else Ok(PortRange(start.value, end.value))
  }

  /** A single port, which must parse and must not be 0. */
  function SinglePort(part: string): (r: Result<set<U16>, string>)
  {
    match ParseU16(part)
    case None => Err(InvalidPortError(part))
    case Some(p) => if p == 0 then Err(ZeroPortError) else Ok({p})
  }

  /** The outcome of each untrimmed token, in order. */
  function TokenResults(parts: seq<string>): seq<Result<set<U16>, string>> {
    seq(|parts|, i requires 0 <= i < |parts| => TokenPorts(Trim(parts[i])))
  }

  /**
   * Token outcomes read left to right: the first error decides the result;
   * otherwise the union of all the tokens' ports.
   */
  function Collect(rs: seq<Result<set<U16>, string>>): Result<set<U16>, string> {
    if rs == [] then Ok({})
    else
      var before := Collect(rs[..|rs| - 1]);
      if before.Err? then before else Merge(before.value, rs[|rs| - 1])
  }

  /** The ports collected so far joined by one token's outcome: its error, or both sets. */
  function Merge(ports: set<U16>, these: Result<set<U16>, string>): Result<set<U16>, string> {
    if these.Err? then these else Ok(ports + these.value)
  }

  /** The ports of a list of untrimmed tokens. */
  function TokensPorts(parts: seq<string>): Result<set<U16>, string> {
    Collect(TokenResults(parts))
  }

  /** The set of ports a specification names. */
  function PortSet(s: string): Result<set<U16>, string> {
    var t := Trim(s);
    if t == [] then Ok({}) else TokensPorts(Split(t, ','))
  }

  /** What `parse_port_spec` returns: the port set in ascending order, or the error. */
  ghost function ParseSpec(s: string): Result<seq<U16>, string> {
    match PortSet(s)
    case Ok(ports) => Ok(SortedSeq<U16>(ports, PortKey))
    case Err(e) => Err(e)
  }

  /**
   * `parse_port_spec`: a loop over the comma-separated tokens that inserts into
   * an ordered set, then the set's elements in ascending order.
   */
  method ParsePortSpec(s: string) returns (r: Result<seq<U16>, string>)
    ensures r == ParseSpec(s)
  {
    var t := Trim(s);
    if t == [] {
      return Ok([]);
    }
    var ports := InsertTokens(Split(t, ','));
    if ports.Err? {
      return Err(ports.error);
    }
    var out := Ascending(ports.value);
    r := Ok(out);
  }

  /** The token loop: every token's ports inserted in turn, stopping at the first error. */
  method InsertTokens(parts: seq<string>) returns (r: Result<set<U16>, string>)
    ensures r == TokensPorts(parts)
  {
    ghost var rs := TokenResults(parts);
    var ports: set<U16> := {};
    assert |rs| == |parts|;
    for i := 0 to |parts|
      invariant Collect(rs[..i]) == Ok(ports)
    {
      assert rs[..i + 1][..i] == rs[..i];
      assert rs[i] == TokenPorts(Trim(parts[i]));
      var step := InsertToken(ports, Trim(parts[i]));
      if step.Err? {
        ErrorPersists(rs, i + 1);
        return Err(step.error);
      }
      ports := step.value;
    }
    assert rs[..|parts|] == rs;
    return Ok(ports);
  }

  /** The body of the token loop: the ports of one trimmed token added to `ports`, or its error. */
  method InsertToken(ports: set<U16>, part: string) returns (r: Result<set<U16>, string>)
    ensures r == Merge(ports, TokenPorts(part))
  {
    if part == [] {
      assert ports + {} == ports;
      return Ok(ports);
    }
    match SplitOnce(part, '-') {
      case Some((a, b)) =>
        r := InsertRange(ports, a, b);
      case None =>
        var p := ParseU16(part);
        if p.None? {
          return Err(InvalidPortError(part));
        }
        if p.value == 0 {
          return Err(ZeroPortError);
        }
        return Ok(ports + {p.value});
    }
  }

  /** A range token `a-b`: its ports added one by one to `ports`, or its error. */
  method InsertRange(ports: set<U16>, a: string, b: string) returns (r: Result<set<U16>, string>)
    ensures r == Merge(ports, RangePorts(a, b))
  {
    var start := ParseU16(Trim(a));
    if start.None? {
      return Err(InvalidPortError(a));
    }
    var end := ParseU16(Trim(b));
    if end.None? {
      return Err(InvalidPortError(b));
    }
    if start.value == 0 || end.value == 0 {
      return Err(ZeroBoundError);
    }
    if start.value > end.value {
      return Err(InvalidRangeError(start.value, end.value));
    }
    var all := AddRange(ports, start.value, end.value);
    return Ok(all);
  }

  /** The inner loop `for p in start..=end { ports.insert(p) }`. */
  method AddRange(ports: set<U16>, start: U16, end: U16) returns (all: set<U16>)
    requires 1 <= start <= end
    ensures all == ports + PortRange(start, end)
  {
    all := ports;
    for p := start to end + 1
      invariant forall q :: q in all <==> q in ports || start <= q < p
    {
      // the source re-checks for port 0 here; the bounds rule it out
      assert p != 0;
      all := all + {p};
    }
    assert all == ports + PortRange(start, end);
  }

  /** Iterating an ordered set of ports: its elements in ascending order. */
  method Ascending(ports: set<U16>) returns (out: seq<U16>)
    ensures out == SortedSeq<U16>(ports, PortKey)
    ensures StrictlySortedBy(out, PortKey)
    ensures forall x :: x in out <==> x in ports
  {
    out := [];
    for p := 0 to 0x1_0000
      invariant StrictlySortedBy(out, PortKey)
      invariant forall x :: x in out <==> x in ports && x < p
      invariant forall i :: 0 <= i < |out| ==> out[i] < p
    {
      if p in ports {
        out := out + [p];
      }
    }
    StrictlySortedUnique<U16>(out, SortedSeq<U16>(ports, PortKey), PortKey);
  }


  /** Once a prefix of the outcomes holds an error, the whole list fails with that error. */
  lemma {:induction false} ErrorPersists(rs: seq<Result<set<U16>, string>>, i: nat)
    requires i <= |rs| && Collect(rs[..i]).Err?
    ensures Collect(rs) == Collect(rs[..i])
    decreases |rs| - i
  {
    if i < |rs| {
      assert rs[..i + 1][..i] == rs[..i];
      ErrorPersists(rs, i + 1);
    } else {
      assert rs[..i] == rs;
    }
  }

  // ---------------------------------------------------------------------------
  // What a specification means

  /**
   * A list of outcomes succeeds exactly when each one does; then a port is in
   * the result exactly when some outcome holds it. Otherwise the result is the
   * first error in the list.
   */
  lemma {:induction false} CollectMeaning(rs: seq<Result<set<U16>, string>>)
    ensures Collect(rs).Ok? <==> forall i :: 0 <= i < |rs| ==> rs[i].Ok?
    ensures Collect(rs).Ok? ==>
              forall p :: p in Collect(rs).value <==> exists i :: 0 <= i < |rs| && rs[i].Ok? && p in rs[i].value
    ensures Collect(rs).Err? ==>
              exists i :: 0 <= i < |rs| && rs[i] == Collect(rs) && forall j :: 0 <= j < i ==> rs[j].Ok?
  {
    if rs != [] {
      var n := |rs| - 1;
      var init := rs[..n];
      CollectMeaning(init);
      assert forall i :: 0 <= i < n ==> init[i] == rs[i];
      if Collect(init).Ok? && rs[n].Ok? {
        forall p | p in Collect(rs).value
          ensures exists i :: 0 <= i < |rs| && rs[i].Ok? && p in rs[i].value
        {
          if p !in rs[n].value {
            var i :| 0 <= i < n && init[i].Ok? && p in init[i].value;
            assert rs[i] == init[i];
          }
        }
        forall p | exists i :: 0 <= i < |rs| && rs[i].Ok? && p in rs[i].value
          ensures p in Collect(rs).value
        {
          var i :| 0 <= i < |rs| && rs[i].Ok? && p in rs[i].value;
          if i < n {
            assert init[i] == rs[i];
          }
        }
      } else if Collect(init).Err? {
        var i :| 0 <= i < n && init[i] == Collect(init) && forall j :: 0 <= j < i ==> init[j].Ok?;
        assert rs[i] == init[i];
      }
    }
  }

  /** A specification that is empty or all whitespace parses to no ports. */
  lemma BlankSpec(s: string)
    requires AllWhitespace(s)
    ensures ParseSpec(s) == Ok([])
  {
    TrimEmptyIff(s);
  }

  /** The early return for blank input agrees with what the token loop would give. */
  lemma BlankShortcutAgrees(s: string)
    ensures PortSet(s) == TokensPorts(Split(Trim(s), ','))
  {
    var parts := Split(Trim(s), ',');
    if Trim(s) == [] {
      assert |parts| == 1 && parts[0] == [];
      var rs := TokenResults(parts);
      assert Trim(parts[0]) == [];
      assert rs[0] == Ok({});
      assert rs[..0] == [];
      assert Collect(rs) == Ok({} + {});
      var none: set<U16> := {};
      assert none + none == none;
      assert TokensPorts(parts) == Ok({});
    }
  }

  /**
   * A specification is the comma-separated pieces of its trimmed text, each
   * piece trimmed and read as a token (`TokenResults`): it succeeds exactly
   * when every token does, and then names exactly the ports some token names;
   * otherwise it fails with the first failing token's error.
   */
  lemma PortSetMeaning(s: string)
    ensures var rs := TokenResults(Split(Trim(s), ','));
      && (PortSet(s).Ok? <==> forall i :: 0 <= i < |rs| ==> rs[i].Ok?)
      && (PortSet(s).Ok? ==>
            forall p :: p in PortSet(s).value <==> exists i :: 0 <= i < |rs| && rs[i].Ok? && p in rs[i].value)
      && (PortSet(s).Err? ==>
            exists i :: 0 <= i < |rs| && rs[i] == PortSet(s) && forall j :: 0 <= j < i ==> rs[j].Ok?)
  {
    var rs := TokenResults(Split(Trim(s), ','));
    BlankShortcutAgrees(s);
    assert PortSet(s) == Collect(rs);
    CollectMeaning(rs);
  }

  /** Port 0 is never named. */
  lemma PortSetPositive(s: string)
    ensures PortSet(s).Ok? ==> forall p :: p in PortSet(s).value ==> 1 <= p
  {
    var t := Trim(s);
    if t != [] {
      var parts := Split(t, ',');
      var rs := TokenResults(parts);
      forall i | 0 <= i < |rs| && rs[i].Ok? ensures forall p :: p in rs[i].value ==> 1 <= p {
        TokenPortsPositive(Trim(parts[i]));
      }
      CollectPositive(rs);
    }
  }

  /** No token names port 0. */
  lemma TokenPortsPositive(part: string)
    ensures TokenPorts(part).Ok? ==> forall p :: p in TokenPorts(part).value ==> 1 <= p
  {
    if part != [] {
      match SplitOnce(part, '-')
      case Some((a, b)) => RangeOfPositive(a, b, ParseU16(Trim(a)), ParseU16(Trim(b)));
      case None => SinglePortPositive(part);
    }
  }

  lemma RangeOfPositive(a: string, b: string, start: Option<U16>, end: Option<U16>)
    ensures RangeOf(a, b, start, end).Ok? ==> forall p :: p in RangeOf(a, b, start, end).value ==> 1 <= p
  {
    if RangeOf(a, b, start, end).Ok? {
      PortRangePositive(start.value, end.value);
    }
  }

  lemma SinglePortPositive(part: string)
    ensures SinglePort(part).Ok? ==> forall p :: p in SinglePort(part).value ==> 1 <= p
  {
  }

  lemma PortRangePositive(lo: U16, hi: U16)
    requires 1 <= lo
    ensures forall p :: p in PortRange(lo, hi) ==> 1 <= p
  {
  }

  /** When every token names only non-zero ports, so does their union. */
  lemma {:induction false} CollectPositive(rs: seq<Result<set<U16>, string>>)
    requires forall i :: 0 <= i < |rs| && rs[i].Ok? ==> forall p :: p in rs[i].value ==> 1 <= p
    ensures Collect(rs).Ok? ==> forall p :: p in Collect(rs).value ==> 1 <= p
  {
    if rs != [] {
      var n := |rs| - 1;
      assert forall i :: 0 <= i < n ==> rs[..n][i] == rs[i];
      CollectPositive(rs[..n]);
    }
  }


  /** On success the list is strictly ascending, holds only ports 1..65535, and holds exactly the port set. */
  lemma ParseSpecShape(s: string)
    requires ParseSpec(s).Ok?
    ensures StrictlySortedBy(ParseSpec(s).value, PortKey)
    ensures forall i :: 0 <= i < |ParseSpec(s).value| ==> 1 <= ParseSpec(s).value[i] <= 65535
    ensures forall p :: p in ParseSpec(s).value <==> p in PortSet(s).value
  {
    PortSetPositive(s);
    SortedPositive(PortSet(s).value);
  }

  lemma SortedPositive(ports: set<U16>)
    requires forall p :: p in ports ==> 1 <= p
    ensures forall i :: 0 <= i < |SortedSeq<U16>(ports, PortKey)| ==> 1 <= SortedSeq<U16>(ports, PortKey)[i]
  {
    SortedSeqAll<U16>(ports, PortKey, p => 1 <= p);
  }

  /** The ports from `lo` to `hi`, in ascending order, are the consecutive numbers from `lo`. */
  lemma RangeListed(lo: U16, hi: U16)
    requires lo <= hi
    ensures SortedSeq<U16>(PortRange(lo, hi), PortKey) == seq(hi - lo + 1, i requires 0 <= i < hi - lo + 1 => (lo + i) as U16)
  {
    var want: seq<U16> := seq(hi - lo + 1, i requires 0 <= i < hi - lo + 1 => (lo + i) as U16);
    forall x: U16 ensures x in want <==> x in PortRange(lo, hi) {
      if Between(lo, hi, x) {
        assert want[x - lo] == x;
      }
    }
    StrictlySortedUnique<U16>(want, SortedSeq<U16>(PortRange(lo, hi), PortKey), PortKey);
  }

  /** A hyphenated token is the range of its two sides, split at the first hyphen. */
  lemma RangeToken(a: string, b: string)
    requires '-' !in a
    ensures TokenPorts(a + "-" + b) == RangePorts(a, b)
  {
    SplitOnceAt(a, '-', b);
    assert (a + "-" + b)[|a|] == '-';
  }

  lemma DigitsAreTrimmed(s: string)
    requires s != [] && AllDigits(s)
    ensures Trim(s) == s
  {
    TrimOfTrimmed(s);
  }

  /**
   * The bounds of a range written in decimal: a zero bound is rejected first,
   * even when the start is above the end; then a start above the end;
   * otherwise exactly the ports from lo to hi.
   */
  lemma RangeOfDecimals(lo: U16, hi: U16)
    ensures RangePorts(ShowNat(lo), ShowNat(hi)) ==
      if lo == 0 || hi == 0 then Err(ZeroBoundError)
      else if lo > hi then Err(InvalidRangeError(lo, hi))
      else Ok(PortRange(lo, hi))
  {
    DigitsAreTrimmed(ShowNat(lo));
    DigitsAreTrimmed(ShowNat(hi));
    ParseShowU16(lo);
    ParseShowU16(hi);
  }

  /** The token `lo-hi` in decimal, as above. */
  lemma RangeOfNumbers(lo: U16, hi: U16)
    ensures TokenPorts(ShowNat(lo) + "-" + ShowNat(hi)) ==
      if lo == 0 || hi == 0 then Err(ZeroBoundError)
      else if lo > hi then Err(InvalidRangeError(lo, hi))
      else Ok(PortRange(lo, hi))
  {
    RangeToken(ShowNat(lo), ShowNat(hi));
    RangeOfDecimals(lo, hi);
  }

  /** A single decimal port: 0 is rejected, anything else names itself. */
  lemma SingleNumber(p: U16)
    ensures TokenPorts(ShowNat(p)) == if p == 0 then Err(ZeroPortError) else Ok({p})
  {
    ParseShowU16(p);
    assert SplitOnce(ShowNat(p), '-') == None by {
      assert forall k :: 0 <= k < |ShowNat(p)| ==> ShowNat(p)[k] != '-';
    }
  }

  /** A decimal above 65535 is an invalid port, quoted as written. */
  lemma SingleTooLarge(n: nat)
    requires n > 0xFFFF
    ensures TokenPorts(ShowNat(n)) == Err(InvalidPortError(ShowNat(n)))
  {
    ParseShowTooLarge(n);
    assert SplitOnce(ShowNat(n), '-') == None by {
      assert forall k :: 0 <= k < |ShowNat(n)| ==> ShowNat(n)[k] != '-';
    }
  }

  // ---------------------------------------------------------------------------
  // Canonical form and idempotence

  /** The decimal text of each port. */
  function Shown(ports: seq<U16>): seq<string> {
    seq(|ports|, i requires 0 <= i < |ports| => ShowNat(ports[i]))
  }

  /** The canonical specification of a list of ports: their decimals joined by commas. */
  function Canonical(ports: seq<U16>): string {
    Join(Shown(ports), ",")
  }

  /** Tokens that each name one port give the set of those ports. */
  lemma SinglesCollect(rs: seq<Result<set<U16>, string>>, ports: seq<U16>)
    requires |rs| == |ports| && forall i :: 0 <= i < |ports| ==> rs[i] == Ok({ports[i]})
    ensures Collect(rs) == Ok(set p | p in ports)
  {
    CollectMeaning(rs);
    assert forall i :: 0 <= i < |rs| ==> rs[i].Ok?;
    var all := set p | p in ports;
    forall p ensures p in Collect(rs).value <==> p in all {
      if p in all {
        var i :| 0 <= i < |ports| && ports[i] == p;
        assert rs[i].Ok? && p in rs[i].value;
      }
      if p in Collect(rs).value {
        var i :| 0 <= i < |rs| && rs[i].Ok? && p in rs[i].value;
        assert p == ports[i];
      }
    }
    assert Collect(rs).value == all;
  }

  /** The tokens of a canonical specification name exactly the listed ports. */
  lemma ShownTokens(ports: seq<U16>)
    requires forall i :: 0 <= i < |ports| ==> 1 <= ports[i]
    ensures TokensPorts(Shown(ports)) == Ok(set p | p in ports)
  {
    var rs := TokenResults(Shown(ports));
    forall i | 0 <= i < |ports| ensures rs[i] == Ok({ports[i]}) {
      DigitsAreTrimmed(ShowNat(ports[i]));
      SingleNumber(ports[i]);
    }
    SinglesCollect(rs, ports);
  }

  /** Parsing the canonical form of a list of ports (1..65535) gives the set of those ports. */
  lemma CanonicalParses(ports: seq<U16>)
    requires forall i :: 0 <= i < |ports| ==> 1 <= ports[i]
    ensures PortSet(Canonical(ports)) == Ok(set p | p in ports)
  {
    var parts := Shown(ports);
    var c := Canonical(ports);
    if ports == [] {
      assert c == [];
      assert (set p | p in ports) == {};
    } else {
      JoinEdges(parts, ",");
      assert AllDigits(parts[0]) && AllDigits(parts[|parts| - 1]);
      TrimOfTrimmed(c);
      forall i | 0 <= i < |parts| ensures ',' !in parts[i] {
        assert AllDigits(parts[i]);
      }
      SplitJoin(parts, ',');
      ShownTokens(ports);
    }
  }

  /** Re-parsing the canonical form of a successful parse gives the same result. */
  lemma ParseIdempotent(s: string)
    requires ParseSpec(s).Ok?
    ensures ParseSpec(Canonical(ParseSpec(s).value)) == ParseSpec(s)
  {
    var ports := PortSet(s).value;
    var r := ParseSpec(s).value;
    ParseSpecShape(s);
    CanonicalParses(r);
    SetOfMembers(r, ports);
    ParseSpecOfSet(s, ports);
    ParseSpecOfSet(Canonical(r), ports);
  }

  lemma SetOfMembers(r: seq<U16>, ports: set<U16>)
    requires forall p :: p in r <==> p in ports
    ensures (set p | p in r) == ports
  {
  }

  /** A specification naming the set `ports` parses to that set in ascending order. */
  lemma ParseSpecOfSet(s: string, ports: set<U16>)
    requires PortSet(s) == Ok(ports)
    ensures ParseSpec(s) == Ok(SortedSeq<U16>(ports, PortKey))
  {
  }

  /**
   * A text made of non-empty, comma-free tokens joined by commas, with no
   * whitespace at either end, means exactly what its tokens mean.
   */
  lemma JoinedTokens(parts: seq<string>)
    requires |parts| >= 1 && forall i :: 0 <= i < |parts| ==> parts[i] != [] && ',' !in parts[i]
    requires !IsWhitespace(parts[0][0]) && !IsWhitespace(parts[|parts| - 1][|parts[|parts| - 1]| - 1])
    ensures PortSet(Join(parts, ",")) == TokensPorts(parts)
  {
    SplitTrimmed(parts);
    JoinEdges(parts, ",");
  }

  /** Non-empty comma-free tokens joined by commas, with no whitespace at the ends, split back into themselves untrimmed. */
  lemma SplitTrimmed(parts: seq<string>)
    requires |parts| >= 1 && forall i :: 0 <= i < |parts| ==> parts[i] != [] && ',' !in parts[i]
    requires !IsWhitespace(parts[0][0]) && !IsWhitespace(parts[|parts| - 1][|parts[|parts| - 1]| - 1])
    ensures Trim(Join(parts, ",")) == Join(parts, ",")
    ensures Split(Join(parts, ","), ',') == parts
  {
    JoinEdges(parts, ",");
    TrimOfTrimmed(Join(parts, ","));
    SplitJoin(parts, ',');
  }

  /**
   * Repeated and overlapping tokens collapse: the outcomes of two copies of a
   * port followed by a range containing it collect to just that range.
   */
  lemma OverlapCollect(p: U16, lo: U16, hi: U16)
    requires lo <= p <= hi
    ensures Collect([Ok({p}), Ok({p}), Ok(PortRange(lo, hi))]) == Ok(PortRange(lo, hi))
  {
    var rs: seq<Result<set<U16>, string>> := [Ok({p}), Ok({p}), Ok(PortRange(lo, hi))];
    CollectMeaning(rs);
    assert forall i :: 0 <= i < |rs| ==> rs[i].Ok?;
    forall q: U16 ensures q in Collect(rs).value <==> q in PortRange(lo, hi) {
      if q in Collect(rs).value {
        var i :| 0 <= i < |rs| && rs[i].Ok? && q in rs[i].value;
      }
      if q in PortRange(lo, hi) {
        assert rs[2].Ok? && q in rs[2].value;
      }
    }
    assert Collect(rs).value == PortRange(lo, hi);
  }
}
