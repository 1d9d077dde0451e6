# Port-specification resolver of a TCP port scanner

The scanner takes a port specification from the command line and resolves it into a list of ports, in `parsePorts`. It then starts a pool of worker goroutines sized by `min(len(ports), runtime.NumCPU()*20)`. This project models those two pieces in Dafny.

A port specification is one of:

- the empty string, meaning every port 1..65535;
- comma-separated tokens, where each token is either:
  - a single integer, such as `443`, or
  - a range `start-end`, such as `20-80`.

Parsing is fail-fast: the first bad token ends the parse with an error naming that token, and no ports are returned.

Modules:

- `GoStrings` models `strings.Split` with a one-character separator. Its partner `Join` undoes it.
- `GoStrconv` models `strconv.Atoi` on a 64-bit `int`. Its partner `Itoa` is read back by it.
- `Scanner` holds the meaning of a specification, `ParseSpec`, as pure functions:
  - `ExpandToken` gives one token's outcome;
  - `Concat` is the fail-fast concatenation of the outcomes.

  It also holds the step-by-step `ParsePorts` method with the same loops as the Go function, proved equal to `ParseSpec`, and the worker-pool size `WorkerCount`.
- `ScannerProps` proves what the resolver promises about `ParseSpec`.
- `RangeOverflow` models the range loop on wrapping 64-bit integers (see Findings).

## Model

| member | source | states |
|---|---|---|
| Scanner.ParsePorts | scanner.go:22-58 | The appending loops return exactly `ParseSpec(portArg)`: the full range 1..65535 for an empty specification, otherwise each token's ports in order, or the first failing token's error. |
| Scanner.AppendToken | scanner.go:35-55 | One pass of the token loop succeeds exactly when the token expands. On success it yields the ports so far followed by the token's ports. On failure it yields the token's error. |
| Scanner.AppendRange | scanner.go:45-47 | The range loop appends exactly start, start+1, ..., end to the list. |
| Scanner.Range | scanner.go:45-47 | The range start..end has end-start+1 elements when start <= end and none otherwise. Element k is start+k. |
| Scanner.ExpandToken | scanner.go:35-55 | A successful token yields at least one port. A failing token's error carries the token itself. The error is "invalid range" exactly when the token holds `-`, and "invalid port" otherwise. |
| Scanner.Concat | scanner.go:33-57 | A failed concatenation fails with one of the outcomes' own errors. |
| Scanner.FirstErrorWins | scanner.go:37-38 | Once all outcomes before position i succeed and outcome i fails, the whole result is outcome i's error, whatever follows. |
| Scanner.WorkerCount | scanner.go:102 | The worker count is at most the number of ports and at most cpus*20, and equals one of them. It is 0 when there are no ports, and positive when there are ports and CPUs. |
| GoStrings.Count | scanner.go:32 | The count never exceeds the length, and is 0 exactly when the character is absent. |
| GoStrings.Split | scanner.go:32 | `strings.Split` yields one piece more than there are separators, so the empty string gives one empty piece. |
| GoStrings.SplitPiecesLackSep | scanner.go:32 | No piece contains the separator. |
| GoStrings.JoinSplit | scanner.go:32 | Joining the pieces with the separator gives back the original string. |
| GoStrings.SplitNoSep | scanner.go:32 | A string without the separator splits into itself alone. |
| GoStrings.SplitAfterPiece | scanner.go:36 | A separator-free first piece followed by the separator is split off unchanged, ahead of the rest's pieces. |
| GoStrings.SplitTrailingSep | scanner.go:32 | Appending the separator appends exactly one empty piece. |
| GoStrings.SplitCovers | scanner.go:32 | Every non-separator character of the input lies in some piece. |
| GoStrconv.Atoi | scanner.go:40-41 | Atoi succeeds only on an optional sign followed by at least one ASCII digit, with a value in the 64-bit int range, so a lone sign fails. Negative results come only from a leading `-`. |
| GoStrconv.AtoiDigits | scanner.go:40-41 | Every digit string, leading zeros allowed and with or without a `+`, parses to its decimal value when that value is at most MaxInt64, and fails otherwise. |
| GoStrconv.AtoiNegDigits | scanner.go:40-41 | `-` followed by a digit string parses to the negated value when that value is at least MinInt64, and fails otherwise. |
| GoStrconv.NatDigits | scanner.go:50 | Partner of the Atoi call at this line (nothing here spells integers): the decimal spelling is a non-empty string of digits whose value is the number. |
| GoStrconv.AtoiItoa | scanner.go:50 | Inverse of the Atoi call at this line: Atoi reads back every 64-bit int that Itoa writes. |
| GoStrconv.AtoiRejectsSpace | scanner.go:50-53 | Atoi does not trim: a string holding a space never parses. |
| ScannerProps.FlattenSnoc | scanner.go:46 | Flattening one more port list appends that list. |
| ScannerProps.ConcatSucceedsIff | scanner.go:33-57 | Fail-fast concatenation succeeds if and only if every outcome succeeds. |
| ScannerProps.ConcatIsFlatten | scanner.go:33-57 | When every outcome succeeds, the result is their port lists concatenated in order. |
| ScannerProps.ConcatLength | scanner.go:33-57 | When every successful outcome has at least one port, a successful result has at least one port per outcome. |
| ScannerProps.ConcatThenErr | scanner.go:51-52 | A failing outcome added last becomes the result, unless an earlier outcome already failed. |
| ScannerProps.ParseSpecIsConcatenation | scanner.go:32-57 | A non-empty specification parses if and only if every comma-token expands. On success the result is the token expansions concatenated in token order. |
| ScannerProps.FirstBadTokenWins | scanner.go:37-38 | The first failing comma-token's error is the result, even when earlier tokens were valid. |
| ScannerProps.EmptySpecIsAllPorts | scanner.go:25-30 | The empty specification yields exactly 65535 ports, 1, 2, ..., 65535, in ascending order. |
| ScannerProps.RangeToken | scanner.go:35-47 | The token `x-y` succeeds if and only if both bounds parse and start <= end. It then contributes exactly start..end, which has end-start+1 elements. Otherwise it is an invalid range. |
| ScannerProps.MultiDashToken | scanner.go:36-38 | A token with two or more `-` is an invalid range. |
| ScannerProps.LeadingDashToken | scanner.go:40-43 | A token starting with `-` has an empty start bound, so it is an invalid range. |
| ScannerProps.SinglePortToken | scanner.go:50-54 | A token without `-` succeeds if and only if it parses as an integer. It then contributes that one integer. Otherwise it is an invalid port naming the token. |
| ScannerProps.EmptyTokenFails | scanner.go:50-52 | The empty token is an invalid port. |
| ScannerProps.SpacedTokenFails | scanner.go:40-43 | A token holding a space never expands. |
| ScannerProps.SpacedSpecFails | scanner.go:32-53 | A specification holding a space anywhere fails, as in `80, 443`. |
| ScannerProps.TrailingComma | scanner.go:32-52 | A trailing comma always makes the parse fail. When nothing earlier failed, the error is an invalid port naming the empty token. |
| ScannerProps.SuccessIsNonEmpty | scanner.go:45-54 | A successful parse is never empty. A non-empty specification yields at least one port per comma-token. |
| ScannerProps.DecimalToken | scanner.go:50-54 | The decimal spelling of any non-negative int is a single-port token for that int. |
| ScannerProps.OneOutcome | scanner.go:33-57 | A single outcome is its own concatenation. |
| ScannerProps.OneTokenSpec | scanner.go:32-33 | A non-empty specification without commas means its single token's outcome. |
| ScannerProps.NoBoundsCheck | scanner.go:54 | No range check on explicit ports: any non-negative 64-bit int spelled in decimal parses to itself, including 0 and values above 65535. |
| ScannerProps.TwoTokenSplit | scanner.go:32-33 | A specification with one comma means the two tokens on either side, in order. |
| ScannerProps.TwoOutcomes | scanner.go:33-57 | Two outcomes combine in order: the first error wins, otherwise the port lists are joined. |
| ScannerProps.DecimalPortsSpec | scanner.go:50-54 | `p,q` in decimal parses to `[p, q]`. |
| ScannerProps.ExampleTwoPorts | scanner.go:32-57 | `80,443` parses to `[80, 443]`. |
| ScannerProps.DecimalRangeSpec | scanner.go:35-47 | `lo-hi` in decimal parses to lo..hi when lo <= hi, and to an invalid range naming the token when hi < lo. |
| ScannerProps.ExampleRange | scanner.go:45-47 | `20-22` parses to `[20, 21, 22]`. |
| ScannerProps.DecimalRangeThenPortSpec | scanner.go:32-57 | `lo-hi,p` parses to lo..hi followed by p. |
| ScannerProps.ExampleNotANumber | scanner.go:50-52 | `abc` is an invalid port. |
| ScannerProps.ExampleReversedRange | scanner.go:42-43 | `50-20` is an invalid range. |
| ScannerProps.ExampleThreeBounds | scanner.go:37-38 | `1-2-3` is an invalid range. |
| ScannerProps.ExampleNegativePort | scanner.go:35-43 | `-5` is an invalid range, not a negative port. |
| ScannerProps.ExampleTrailingComma | scanner.go:50-52 | `80,` is an invalid port naming the empty token. |
| ScannerProps.ExampleOutOfRangePorts | scanner.go:54 | `0` and `70000` are accepted unchanged. |
| RangeOverflow.Inc64 | scanner.go:45 | Go's `i++` on a 64-bit int stays in range and equals i+1 modulo 2^64. |
| RangeOverflow.RangeLoopAsWritten | scanner.go:45-47 | Bounded by its fuel, the loop as written appends at most one port per iteration. |
| RangeOverflow.RangeFront | scanner.go:45-47 | A non-empty range is its start followed by the rest of the range. |
| RangeOverflow.AsWrittenAgreesBelowMax | scanner.go:45-47 | Below MaxInt64, the wrapping loop stops and appends exactly start..end, as the model does. |
| RangeOverflow.AsWrittenNeverStopsAtMax | scanner.go:45-47 | When end is MaxInt64, the wrapping loop appends on every iteration and never stops. |
| RangeOverflow.MaxRangeAsWritten | scanner.go:45 | For `9223372036854775807-9223372036854775807`, the loop as written wraps to MinInt64 after the one port and continues. |
| RangeOverflow.SingletonRangeCorrected | scanner.go:45-47 | A range whose two bounds are the same int n (MaxInt64 included) yields exactly `[n]`. |

## Left out

- `ScanPort` (scanner.go:60-73) dials TCP connections with a timeout. It is network I/O and is not part of this model.
- `main` is not part of this model. Its flag parsing, its `os.Exit` on a missing host or parse error, its channels, goroutines and `sync.WaitGroup`, the `time.Duration` timeout, the `sort.Ints` of open ports and the printing are I/O and concurrency. Only its worker-count expression is modelled.
- Scanner.WorkerCount: `runtime.NumCPU()` is a parameter, `cpus`.
- Go's `int` is taken to be 64 bits. `Atoi` reports an out-of-range value as an error under that assumption.
- The error values are reduced to their kind and the offending token. The `fmt.Errorf` message text ("invalid range: %s", "invalid port: %s") is not modelled.
- Scanner.ParsePorts: the Go function is one body. The model moves the token branch into `AppendToken` and the range loop into `AppendRange`, with the same branches and order.
- Scanner.ParsePorts and Scanner.AppendRange count with unbounded integers. The 64-bit wrap-around of the range loop is modelled separately in `RangeOverflow` (see Findings).
- Go strings are byte sequences; the model uses Dafny strings of characters. Nothing is lost for this resolver: `,` and `-` are ASCII, and any non-ASCII character makes Atoi fail either way.
- Go slices are modelled as Dafny sequences. The amortised reallocation of `append` is not modelled.
- Atoi: the underscore and base-prefix forms are rejected, as `strconv.Atoi` does in base 10. Its distinct error kinds (syntax and range) are both `None`.

## Findings

| source | as written | input that shows it | evidently intended | confidence | as-written member | corrected member |
|---|---|---|---|---|---|---|
| scanner.go:45 | `for i := start; i <= end; i++` is true for every 64-bit `i` when `end` is MaxInt64. `i++` then wraps to MinInt64, so the loop never ends and appends without bound. | `-p 9223372036854775807-9223372036854775807` | the range start..end, here the single value 9223372036854775807 | high (not executed) | RangeOverflow.AsWrittenNeverStopsAtMax | RangeOverflow.SingletonRangeCorrected |
