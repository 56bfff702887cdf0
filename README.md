# Port Sweeper, modelled in Dafny

Port Sweeper lists the processes that listen on TCP ports and kills them by
port. This project models its decision logic:

- the port-specification parser `parse_port_spec`: text such as
  `"3000, 8000,9000-9010"` becomes an ascending list of ports, or an error
  message;
- `list_ports`, which filters, de-duplicates and sorts an operating-system
  snapshot of sockets;
- `kill_port` and `kill_ports`, which kill what listens on each port and
  report one message per port;
- the window `PortSweeperApp` with its `refresh`, `kill_from_input` and
  per-row `kill_port`;
- the command line's `truncate` and `run_kill`.

The modules follow the program:

| module | file | models |
|---|---|---|
| `Wrappers` | wrappers.dfy | `Option` and `Result` |
| `Text` | text.dfy | the Rust `str` and integer functions the core uses: `trim`, `split`, `split_once`, `join`, `u16::from_str`, decimal `Display`, UTF-8 byte length, and the character boundary that `&s[..k]` needs |
| `Sorting` | sorting.dfy | ordering by an integer key: the ascending iteration of a `BTreeSet`, and `sort_by_key` as an in-place sort of an array |
| `PortSpec` | port_spec.dfy | `parse_port_spec` |
| `Listing` | listing.dfy | `list_ports` |
| `Kill` | kill.dfy | `kill_port`, `kill_ports`, and the success/failure filters over their results |
| `Cli` | cli.dfy | `truncate` and `run_kill` |
| `Gui` | gui.dfy | `PortSweeperApp` and its three state-changing methods |

The operating system is modelled by parameters:

- what `listeners::get_all` reports is a `Result<seq<Listener>, string>`;
- what one `kill_port` call observes is an `OsView`. It holds what
  `get_process_by_port` resolves the port to, which pids the refreshed
  process table holds, and whether `kill` is delivered;
- a batch of kills observes `world(i)` on its `i`-th call.

The imperative code keeps its form:

- the token loop and the range loop of `parse_port_spec` are loops that
  insert into a set;
- the filtering loop of `list_ports` keeps a `seen` set, and its sort works
  in place on an array;
- the reporting loop of `run_kill` counts `failed`;
- `PortSweeperApp` is a class whose methods assign its fields.

Each method is proved against a function of its inputs or its old state:
`ParseSpec`, `Kept` and `Listed`, `Requested`, `Refreshed`,
`KilledFromInput` and `KilledRow`. The lemmas prove what the program
promises about those functions.

In a range token, the zero-bound check (src/lib.rs:42-44) runs before the
order check (src/lib.rs:45-47). So "10-0" reports "ports must be between 1
and 65535", not an invalid range. `PortSpec.RangeOfDecimals` proves this
order.

## Model

| member | source | states |
|---|---|---|
| Text.TrimStart | src/lib.rs:29 | The result is a suffix of the input, everything dropped is whitespace, and the result does not start with whitespace |
| Text.TrimEnd | src/lib.rs:29 | The result is a prefix of the input, everything dropped is whitespace, and the result does not end with whitespace |
| Text.IsWhitespace | src/lib.rs:29 | Definition, no contract: `char::is_whitespace`, which decides every trim (also src/lib.rs:35, 40, src/gui.rs:76, src/main.rs:71). It accepts U+0009 to U+000D, U+0020, U+0085, U+00A0, U+1680, U+2000 to U+200A, U+2028, U+2029, U+202F, U+205F and U+3000, the Unicode White_Space characters |
| Text.Trim | src/lib.rs:29 | Definition, no contract: `str::trim` is `TrimStart` of `TrimEnd` |
| Text.TrimEdges | src/lib.rs:35 | A non-empty trimmed text starts and ends with a non-whitespace character |
| Text.TrimOfTrimmed | src/lib.rs:35 | A text with no whitespace at either end is its own trim |
| Text.TrimIdempotent | src/lib.rs:35 | Trimming twice is trimming once, as happens when `kill_from_input` trims before parsing |
| Text.TrimEmptyIff | src/lib.rs:29-30 | A text trims to empty exactly when it is all whitespace |
| Text.Join | src/gui.rs:108-112 | Definition, no contract: `[&str]::join`, the pieces with the separator between neighbours |
| Text.Split | src/lib.rs:34 | `split(',')` gives at least one piece, no piece holds the separator, and joining the pieces with it gives the input back |
| Text.SplitJoin | src/lib.rs:34 | Splitting a join of separator-free pieces gives those pieces back |
| Text.JoinSnoc | src/gui.rs:108-112 | Joining one more piece appends the separator and the piece |
| Text.SplitOnce | src/lib.rs:39 | `split_once('-')` is None exactly when the text has no hyphen; otherwise the two sides around the first hyphen, rejoined, give the text |
| Text.SplitOnceAt | src/lib.rs:39 | A hyphen-free left side followed by a hyphen splits back into exactly its two sides |
| Text.ShowNat | src/lib.rs:46 | The decimal display is a non-empty run of digits with no leading zero whose value is the number |
| Text.ShowNatInjective | src/lib.rs:46 | Different numbers are displayed differently |
| Text.ParseU16 | src/lib.rs:40 | A text that parses holds no hyphen, comma or whitespace |
| Text.ParseShowU16 | src/lib.rs:40-41 | Every 16-bit value parses back from its decimal display, with or without a leading `+` |
| Text.ParseShowTooLarge | src/lib.rs:55 | A decimal above 65535 does not parse |
| Text.Utf8Width | src/main.rs:72 | `char::len_utf8`: every character takes 1 to 4 bytes (1 below U+0080, 2 below U+0800, 3 below U+10000, otherwise 4) |
| Text.ByteLen | src/main.rs:72 | Definition, no contract: `str::len`, the sum of the characters' UTF-8 widths |
| Text.ByteLenAppend | src/main.rs:72 | The UTF-8 length of a concatenation is the sum of the lengths |
| Text.ByteLenAtLeastLength | src/main.rs:72 | A text takes at least one byte per character |
| Text.ByteLenAscii | src/main.rs:72 | An ASCII text takes exactly one byte per character |
| Text.CharIndexAt | src/main.rs:75 | When byte `k` is a character boundary, the number of characters in the first `k` bytes; None exactly when no prefix is `k` bytes long |
| Text.FloorCharIndex | src/main.rs:75 | The longest prefix that fits in `k` bytes: it fits, and one more character would not |
| Text.CharIndexAtIsFloor | src/main.rs:75 | Where byte `k` is a boundary, the two cuts agree |
| Text.CharIndexAtAscii | src/main.rs:75 | In an ASCII text every byte index up to its length is a boundary |
| Sorting.SortByKey | src/lib.rs:95 | `sort_by_key` sorts the array in place by the key, permutes it, and keeps distinct keys distinct |
| Sorting.SiftDown | src/lib.rs:95 | One step of the in-place sort extends the sorted prefix by one element, as a permutation that keeps distinct keys distinct and leaves the unsorted suffix untouched |
| Sorting.Swap | src/lib.rs:95 | Exchanging two neighbours, as a permutation that keeps distinct keys distinct |
| Sorting.SortedSeq | src/lib.rs:62 | The elements of a set with distinct keys, in strictly ascending key order, each exactly once |
| Sorting.StrictlySortedUnique | src/lib.rs:62 | Two strictly ascending sequences with the same members are equal, so an ascending listing of a set is unique |
| Sorting.SortedSeqAll | src/lib.rs:62 | A property of every member of the set holds at every position of its ascending listing |
| PortSpec.PortRange | src/lib.rs:48 | Definition, no contract: the ports of `start..=end`, every port from the start to the end inclusive (empty when start > end) |
| PortSpec.TokenPorts | src/lib.rs:36-59 | Definition, no contract: an empty token names no port, a token with a hyphen is the range of its two sides split at the first hyphen, any other token is a single port |
| PortSpec.TokenResults | src/lib.rs:34-35 | Definition, no contract: the outcome of each comma-separated piece, trimmed and read as a token, in order. What collecting them means is proved in `PortSpec.CollectMeaning` and `PortSpec.PortSetMeaning` |
| PortSpec.RangePorts | src/lib.rs:39-53 | Definition, no contract: `RangeOf` applied to both sides, each trimmed and parsed as `u16` |
| PortSpec.RangeOf | src/lib.rs:40-53 | Definition, no contract: the checks in the source's order. An unparsable start is "invalid port: " and the start as written, then the same for the end, then "ports must be between 1 and 65535" for a zero bound, then "invalid range: start > end"; otherwise the ports start..=end |
| PortSpec.SinglePort | src/lib.rs:55-59 | Definition, no contract: "invalid port: " and the token when it does not parse, "port 0 is not valid" for 0, otherwise that one port |
| PortSpec.Collect | src/lib.rs:34-61 | Definition, no contract: the token outcomes read left to right, where the first error decides the result and otherwise the ports are united. Its meaning is proved in `PortSpec.CollectMeaning` |
| PortSpec.Merge | src/lib.rs:40-59 | Definition, no contract: one token's error, or its ports added to those collected so far |
| PortSpec.PortSet | src/lib.rs:29-61 | Definition, no contract: a blank specification names no port; otherwise the ports of the comma-separated pieces of the trimmed text. Its meaning is proved in `PortSpec.PortSetMeaning` |
| PortSpec.ParseSpec | src/lib.rs:28-63 | Definition, no contract: the port set in ascending order, or its error. Its shape is proved in `PortSpec.ParseSpecShape` |
| PortSpec.ParsePortSpec | src/lib.rs:28-63 | `parse_port_spec` returns exactly `ParseSpec`: the ascending list of the named ports, or the first failing token's error |
| PortSpec.InsertTokens | src/lib.rs:34-61 | The token loop inserts each trimmed token's ports in order and returns the first token error |
| PortSpec.InsertToken | src/lib.rs:35-60 | One token: an empty token adds nothing, a hyphenated token is a range, any other token is a single non-zero port |
| PortSpec.InsertRange | src/lib.rs:39-53 | The range checks, in the source's order: the start parses, the end parses, no bound is 0, start <= end; then its ports are added |
| PortSpec.AddRange | src/lib.rs:48-53 | The inner loop adds exactly the ports `start..=end`; its check for port 0 can never fire |
| PortSpec.Ascending | src/lib.rs:62 | Iterating the ordered set gives its members strictly ascending |
| PortSpec.ErrorPersists | src/lib.rs:40-57 | Once a token fails, the whole parse fails with that token's error |
| PortSpec.CollectMeaning | src/lib.rs:34-61 | The tokens succeed together exactly when each one does; then a port is in the result exactly when some token names it; otherwise the result is the first failing token's error |
| PortSpec.BlankShortcutAgrees | src/lib.rs:29-32 | The early `Ok` for a blank input agrees with what the token loop would give |
| PortSpec.BlankSpec | src/lib.rs:29-32 | A specification that is empty or all whitespace parses to `Ok` of no ports |
| PortSpec.PortSetMeaning | src/lib.rs:29-61 | A specification succeeds exactly when all its trimmed comma-separated tokens do, names the union of their ports, and otherwise fails with the first token error |
| PortSpec.PortSetPositive | src/lib.rs:42-58 | Port 0 is never named |
| PortSpec.TokenPortsPositive | src/lib.rs:39-59 | No token names port 0 |
| PortSpec.RangeOfPositive | src/lib.rs:42-44 | A range that passes the zero check holds no port 0 |
| PortSpec.SinglePortPositive | src/lib.rs:55-58 | A single port that is accepted is not 0 |
| PortSpec.PortRangePositive | src/lib.rs:48-52 | A range starting at 1 or above holds no port 0 |
| PortSpec.CollectPositive | src/lib.rs:52-59 | The union of port sets free of 0 is free of 0 |
| PortSpec.ParseSpecShape | src/lib.rs:33-62 | A successful parse is strictly ascending (so free of duplicates), holds only ports 1..65535, and holds exactly the named ports |
| PortSpec.SortedPositive | src/lib.rs:62 | The ascending listing of a set of non-zero ports holds no 0 |
| PortSpec.RangeListed | src/lib.rs:48-53 | The ports of `lo-hi` are listed as the consecutive numbers from lo to hi |
| PortSpec.RangeToken | src/lib.rs:39 | A hyphenated token is the range of its two sides, split at the first hyphen |
| PortSpec.DigitsAreTrimmed | src/lib.rs:40 | A run of digits is its own trim |
| PortSpec.RangeOfDecimals | src/lib.rs:40-47 | For decimal bounds: a zero bound is rejected first, even when start > end ("10-0"); then start > end is rejected with both bounds quoted; otherwise exactly the ports from lo to hi |
| PortSpec.RangeOfNumbers | src/lib.rs:39-53 | The same for the token `lo-hi` |
| PortSpec.SingleNumber | src/lib.rs:55-59 | A decimal single port names itself, or is rejected as port 0 |
| PortSpec.SingleTooLarge | src/lib.rs:55 | A decimal above 65535 is an invalid port, quoted as written |
| PortSpec.Shown | src/lib.rs:62 | Definition, no contract: the decimal display of each port, in order. What the canonical text means is proved in `PortSpec.CanonicalParses` |
| PortSpec.SinglesCollect | src/lib.rs:59-62 | Tokens that each name one port give the set of those ports |
| PortSpec.ShownTokens | src/lib.rs:55-59 | The decimal tokens of non-zero ports name exactly those ports |
| PortSpec.CanonicalParses | src/lib.rs:28-62 | The comma-joined decimals of non-zero ports parse to exactly those ports |
| PortSpec.ParseIdempotent | src/lib.rs:28-63 | Parsing the canonical text of a successful parse gives the same result |
| PortSpec.SetOfMembers | src/lib.rs:62 | A listing and a set with the same members describe the same set |
| PortSpec.ParseSpecOfSet | src/lib.rs:62 | A specification naming a set parses to that set in ascending order |
| PortSpec.JoinedTokens | src/lib.rs:34-35 | A text of non-empty comma-free tokens with no whitespace at either end means exactly what its tokens mean |
| PortSpec.SplitTrimmed | src/lib.rs:29-34 | Such a text is its own trim and splits back into its tokens |
| PortSpec.OverlapCollect | src/lib.rs:52-59 | The outcomes of two copies of a port followed by a range containing it collect to just that range |
| Listing.IsUnspecified | src/lib.rs:80-82 | Definition, no contract: `is_unspecified()` for IPv4 and IPv6, true exactly for the all-zero addresses 0.0.0.0 and :: |
| Listing.Listening | src/lib.rs:72-85 | Definition, no contract: a record is listed when it is TCP, its port is not 0 and its address is unspecified (0.0.0.0 or ::) |
| Listing.Kept | src/lib.rs:71-94 | Definition, no contract: the rows the filtering loop collects, in snapshot order; a listed record is added when its (port, pid) was not added before. Its meaning is proved in `Listing.KeptMeaning` |
| Listing.EntryOf | src/lib.rs:87-92 | Definition, no contract: the row of a record copies its port, pid and process name and says "Running". That every listed row is such a row is proved in `Listing.ListedRows` |
| Listing.EntryKeyOrder | src/lib.rs:95 | The sort key orders rows by port, then by pid, and tells apart rows with different (port, pid) |
| Listing.ListPorts | src/lib.rs:67-97 | `list_ports` passes on the snapshot's error, and otherwise returns the kept rows sorted by (port, pid) |
| Listing.Listed | src/lib.rs:95 | The listed rows are strictly ascending by (port, pid) and are exactly the kept rows |
| Listing.SameMembers | src/lib.rs:95 | Sorting keeps the same rows |
| Listing.KeepListening | src/lib.rs:69-94 | The filtering loop with its `seen` set gives exactly `Kept` of the snapshot |
| Listing.KeptDistinct | src/lib.rs:86 | No two kept rows share a (port, pid) |
| Listing.KeptMeaning | src/lib.rs:71-93 | A row is kept exactly when it is the row of the first TCP record, with a non-zero port on an unspecified address, that has its (port, pid) |
| Listing.FirstListeningPrefix | src/lib.rs:86 | The first records of a prefix of the snapshot are the first records of the snapshot that lie in the prefix |
| Listing.KeptNewKey | src/lib.rs:86-93 | A listed record whose (port, pid) has not been seen is the first with that key |
| Listing.KeptOldKey | src/lib.rs:86 | A record whose (port, pid) has been seen is not the first with that key |
| Listing.KeptHasKey | src/lib.rs:86-93 | Every listed record's (port, pid) is among the kept rows |
| Listing.KeptSetDistinct | src/lib.rs:86 | Kept rows with the same key are the same row |
| Listing.ListedRows | src/lib.rs:71-96 | Every listed row says "Running" and copies the first listed record with its (port, pid); every record that passes the filter has its (port, pid) listed |
| Kill.KillPort | src/lib.rs:100-117 | Definition, no contract: a resolution error gives "Port N: " and the error; a pid missing from the process table gives "Port N: process P not found"; a refused kill gives "Port N: failed to kill process (try running with elevated permissions)"; otherwise success with "Port N terminated successfully!". Its outcomes are proved in `Kill.KillPortSucceeds`, `Kill.KillPortTail` and `Kill.KillPortSuccessIffMessage` |
| Kill.ResultOf | src/lib.rs:123-126 | Definition, no contract: the result for a port holds that port and what `kill_port` gave. `Kill.KillPorts` states this for each result of a batch |
| Kill.MapObserving | src/lib.rs:121-127 | Definition, no contract: the map, with call `i` observing `world(i)`. `Kill.KillPorts` states its length and order |
| Kill.MapObservingAppend | src/lib.rs:121-127 | Mapping a concatenation maps its two parts one after the other |
| Kill.KillPorts | src/lib.rs:120-128 | `kill_ports` gives one result per port, in order, result `i` being `kill_port` of port `i` |
| Kill.KillPortSucceeds | src/lib.rs:100-117 | A kill succeeds exactly when the port resolves, the pid is in the process table and the kill is delivered |
| Kill.KillPortTail | src/lib.rs:103-115 | Every message is "Port N" for its own port followed by more text, which starts with a space on success and with a colon on each failure |
| Kill.KillPortLabelled | src/lib.rs:103-115 | Every message starts with "Port N" for its own port |
| Kill.KillPortSuccessIffMessage | src/lib.rs:112-116 | A kill succeeds exactly when its message is the success message: no failure carries it |
| Kill.KillPortMessageNamesPort | src/lib.rs:103-115 | Different ports never give the same message |
| Kill.LeadingDigits | src/lib.rs:103 | The run of digits a text starts with |
| Kill.LeadingDigitsOf | src/lib.rs:103 | Digits followed by a non-digit are exactly the leading digits |
| Kill.DigitRun | src/lib.rs:103 | A port number followed by a non-digit can be read back from a message |
| Kill.KillPortsMessages | src/lib.rs:120-128 | Each result of a batch succeeds exactly when its message is its port's success message |
| Kill.KillPortsAppend | src/lib.rs:120-128 | A batch over a concatenation is the two batches in turn, the second observing the later calls |
| Kill.Failures | src/gui.rs:97 | The failed results, in order, are no more than the results |
| Kill.Successes | src/gui.rs:96 | The successful results, in order, are no more than the results |
| Kill.Messages | src/gui.rs:108-111 | Definition, no contract: the messages of some results, in order. How they are printed and joined is proved in `Cli.ReportStep` and `Gui.KilledFromInputFailed` |
| Kill.MessagesAppend | src/main.rs:86-92 | One more result adds its message at the end |
| Kill.FailuresAppend | src/gui.rs:97 | The failures of a concatenation are the two parts' failures, in order |
| Kill.SuccessesAppend | src/gui.rs:96 | The same for the successes |
| Kill.FiltersSound | src/gui.rs:96-97 | Failures are failed results of the batch, and successes successful ones |
| Kill.FiltersComplete | src/gui.rs:96-97 | Each failed result is among the failures, and each successful one among the successes |
| Kill.FiltersPartition | src/gui.rs:96-97 | Together the two filters hold every result exactly once |
| Kill.NoFailuresIff | src/gui.rs:98 | There are no failures exactly when every result succeeded |
| Kill.BatchSucceedsIff | src/gui.rs:95-98 | A batch has no failures exactly when every port's kill succeeds |
| Cli.SaturatingPred | src/main.rs:75 | Definition, no contract: `max.saturating_sub(1)`, one less than `max`, and 0 when `max` is 0 |
| Cli.TruncateAsWritten | src/main.rs:70-77 | Definition, no contract: `truncate` as written. The trimmed text when its UTF-8 length is at most `max`, otherwise its first `max - 1` bytes (saturating) and "…"; None where that cut falls inside a character and Rust panics |
| Cli.Truncate | src/main.rs:70-77 | Definition, no contract: `truncate` with the cut moved to the last character boundary at or before byte `max - 1`. Its results are proved in `Cli.TruncateShort`, `Cli.TruncateLong` and `Cli.TruncateAgrees` |
| Cli.TruncateShort | src/main.rs:71-73 | A text whose trimmed UTF-8 length is at most `max` is returned trimmed, and truncating it again changes nothing |
| Cli.TruncateLong | src/main.rs:74-76 | A longer text becomes the longest prefix of its trim that fits in `max - 1` bytes (0 when `max` is 0), followed by the ellipsis |
| Cli.TruncateFits | src/main.rs:70-77 | The result is at most `max` characters, except that `max` 0 still leaves the ellipsis |
| Cli.TruncateZero | src/main.rs:75 | With `max` 0 the subtraction saturates and every non-blank text becomes the ellipsis alone |
| Cli.TruncateAgrees | src/main.rs:75 | Where the source's cut is at a character boundary, it gives what the corrected cut gives |
| Cli.TruncateAsciiSafe | src/main.rs:75 | On ASCII text the source's cut never falls inside a character |
| Cli.TruncateMidCharacter | src/main.rs:75 | A cut inside a multi-byte character: the source panics where the corrected cut keeps the ASCII start |
| Cli.PrefixBytes | src/main.rs:72-75 | The byte lengths of the prefixes of an ASCII start, a multi-byte character and more text |
| Cli.RunKill | src/main.rs:79-98 | A parse error is passed on and an empty list is refused, both before any kill; otherwise successes go to standard output and failures to standard error, in order, and the run fails exactly when some kill failed, reporting how many |
| Cli.Report | src/main.rs:85-93 | The reporting loop prints the successes' and the failures' messages in order and counts the failures in `failed` |
| Cli.ReportStep | src/main.rs:86-92 | One more result adds its message to exactly one output, and counts when it failed |
| Gui.KillSummary | src/gui.rs:96-113 | Definition, no contract: with no failures, success and the single result's message or "N port(s) terminated successfully!"; otherwise failure and the failed messages in order joined by "; " |
| Gui.KillSummaryOkIff | src/gui.rs:96-104 | The status reports success exactly when every kill succeeded |
| Gui.KillSummarySingle | src/gui.rs:98-113 | For a batch of one, the status is that kill's own message and outcome |
| Gui.KillSummaryCount | src/gui.rs:98-103 | All kills of a batch other than a single one succeeding give "N port(s) terminated successfully!" |
| Gui.KillSummaryAppendFailure | src/gui.rs:108-112 | A further failure appends "; " and its message to a failing status |
| Gui.KillSummaryAppendSuccess | src/gui.rs:107-112 | A further success leaves a failing status as it is |
| Gui.KillSummaryFirstFailure | src/gui.rs:107-112 | The first failure alone is its own message |
| Gui.KillSummaryOfBatch | src/gui.rs:95-104 | A batch's status reports success exactly when every port's kill succeeds; the status of one port is that kill's outcome and message |
| Gui.Requested | src/gui.rs:76-94 | The requested ports are non-empty and are the parse of the trimmed text box |
| Gui.RequestedCases | src/gui.rs:76-94 | A blank box gives "Enter port(s) to kill", a parse error is shown as is, an empty parse gives "No valid ports", and the ports are requested exactly otherwise |
| Gui.CheckInput | src/gui.rs:76-94 | The checks at the start of `kill_from_input` give exactly `Requested` |
| Gui.Refreshed | src/gui.rs:65-73 | Definition, no contract: on a listing the table becomes the listed rows; on an error the status line shows it as a failure |
| Gui.AfterBatch | src/gui.rs:95-115 | Definition, no contract: the status and its flag from `KillSummary`; on success the text box is cleared and the window refreshed; in both cases the timer is set to `now + 5.0` |
| Gui.KilledFromInput | src/gui.rs:75-116 | Definition, no contract: a refused text box sets the status line to the refusal as a failure; otherwise `AfterBatch` of the requested ports' kills |
| Gui.KilledRow | src/gui.rs:118-128 | Definition, no contract: the single result's message and outcome, a refresh only on success, and the timer |
| Gui.RefreshedMeaning | src/gui.rs:65-73 | `refresh` replaces the table on success and otherwise shows the error as a failure; the text box and the timer never change |
| Gui.KilledFromInputRefused | src/gui.rs:76-93 | A refused text box only changes the status line and its flag; nothing is killed and the timer is untouched |
| Gui.KilledFromInputSucceeded | src/gui.rs:95-115 | When every kill succeeds the text box is cleared, the table refreshed and the timer set; the status is the single message or the count, unless listing fails |
| Gui.BatchSucceeded | src/gui.rs:98-106 | The same for any batch of ports |
| Gui.KilledFromInputFailed | src/gui.rs:107-115 | When some kill fails, only the status changes: the failed messages in order joined by "; ", a failure flag and the timer |
| Gui.KilledRowMeaning | src/gui.rs:118-128 | A row's button copies its kill's message and outcome, refreshes only on success, sets the timer and keeps the text box |
| Gui.SingleInputIsRow | src/gui.rs:75-128 | Killing one port from the text box shows what that port's row button shows |
| Gui.PortSweeperApp.constructor | src/gui.rs:55-62 | The default window: no rows, an empty text box, no status, no timer |
| Gui.PortSweeperApp.Refresh | src/gui.rs:65-73 | `refresh` gives the window `Refreshed` describes |
| Gui.PortSweeperApp.KillFromInput | src/gui.rs:75-116 | `kill_from_input` gives the window `KilledFromInput` describes |
| Gui.PortSweeperApp.Refuse | src/gui.rs:77-92 | A refusal sets the status line and the failure flag and nothing else |
| Gui.PortSweeperApp.ShowBatch | src/gui.rs:95-115 | Reporting a batch gives the window `AfterBatch` describes |
| Gui.PortSweeperApp.KillPort | src/gui.rs:118-128 | The row's `kill_port` gives the window `KilledRow` describes |

## Left out

- The operating system: `listeners::get_all`, `get_process_by_port` and `sysinfo`'s process table and `kill` (src/lib.rs:68, 101-112) are parameters. The model says which outcomes they can have, not how they arise.
- The Listener record: only the protocol, the address, the port, the pid and the process name are modelled.
- The window's rendering: `run`, `card_frame`, `update`, the colours and the egui layout are not modelled. That covers `update`'s first refresh and its clearing of the status line after the timer (src/gui.rs:131-142).
- The timer: time is a `real`, so `now + 5.0` is exact; floating-point rounding of `f64` is not modelled.
- The source writes `kill_from_input` as one method. The model splits it into `CheckInput`, `Refuse` and `ShowBatch`, which run the same steps in the same order.
- src/installer_macos.rs and src/bin/psweep-gui.rs are not part of this model: they are OS plumbing and a two-line wrapper.
- The command line's argument parsing, the `run` dispatch and the table printing of src/main.rs are not modelled. `run_kill`'s printing is modelled as two message lists, and its `anyhow` errors as their text.
- `sort_by_key` is stable; the model's in-place insertion sort is also stable. Rust's algorithm is different, but the keys are distinct, so the result is the same.
- The counters are unbounded naturals. `failed` (src/main.rs:85) has Rust's default integer type `i32`, and `ok.len()` is a `usize`. Neither can overflow: both are at most the number of ports, and a parse names at most 65535 distinct ports.

## Findings

| source | as written | input that shows it | evidently intended | confidence | as-written member | corrected member |
|---|---|---|---|---|---|---|
| src/main.rs:75 | `&s[..max.saturating_sub(1)]` slices at a byte index, which panics when that index falls inside a multi-byte character | a process name of 22 ASCII characters followed by 'é' and more text, at the table's width `max = 24`: byte 23 is inside 'é' | cut at the last character boundary at or before byte `max - 1`, keeping the 22 ASCII characters and adding "…" | not executed | Cli.TruncateAsWritten, Cli.TruncateMidCharacter | Cli.Truncate, Cli.TruncateLong |
