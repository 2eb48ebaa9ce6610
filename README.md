# learn-fastmcp: configuration validator and demo tools, in Dafny

This project models the logic of a small FastMCP demonstration server:

- **`Config`** (`config.dfy`) models `src/learn_fastmcp/config.py`. It covers the `TransportType` enum and the `MCPConfig` record with its defaults (`streamable-http`, `0.0.0.0`, `8000`). It models the transport validator, which lower-cases the input, strips it and accepts only `stdio` or `streamable-http`. It models the inclusive port range 1..65535, construction with every field error collected, `to_run_config`, `__repr__`, and `load_config`, which wraps every construction failure in a `ValueError` that starts with `"Configuration error: "`. The subset type `Config` states the record's invariant: a configuration that exists has a valid port, and its transport is one of the enum's members by its type.
- **`Server`** (`server.dfy`) models `src/learn_fastmcp/main.py`. `StreamSum` is the accumulating loop of `stream_sum_tool`, together with its progress reports. `CliMain` is `main()`'s dispatch from outcome to exit status and to what it prints to stderr.
- **`DemoTools`** (`demo_tools.dfy`) models the root `main.py`. It holds the `countdown_tool` and `stream_sum_tool` generators, each as a method that builds its sequence of yielded events in a loop. Each method is proved equal to a reference definition, and lemmas about that definition give the shape of the stream.
- **`Decimal`** (`decimal.dfy`) is Python's `str()` of a non-negative integer, as the f-strings use it. It comes with its inverse. **`Series`** (`series.dfy`) is the sum 1 + ... + k, accumulated term by term, with Gauss's closed form proved about it. **`Wrappers`** (`wrappers.dfy`) holds `Option` and `Result`. A `Failure` stands for a raised exception.

The comment block at src/learn_fastmcp/main.py:24-33 also names SSE as a transport. The `TransportType` enum (src/learn_fastmcp/config.py:21-31) has only `stdio` and `streamable-http`, and the model follows the enum.

As written, `main()` prints `"Configuration error: " + str(e)`. Here `str(e)` is the message `load_config` built, which already starts with `"Configuration error: "`. The printed text therefore carries the prefix twice. The model keeps this behaviour, and `Server.ConfigFailureLine` states it.

## Model

| member | source | states |
|---|---|---|
| `Config.Transport.Value` | src/learn_fastmcp/config.py:21-31 | each enum member's value is one of the valid transport strings |
| `Config.ValidTransports` | src/learn_fastmcp/config.py:107 | the set `{t.value for t in TransportType}`; its contents are stated by `Config.ValidTransportsAreValues` |
| `Config.ValidTransportsAreValues` | src/learn_fastmcp/config.py:107 | a string is a valid transport iff it is the value of some enum member |
| `Config.TransportNamed` | src/learn_fastmcp/config.py:62-66 | an accepted transport string is coerced into the enum member whose value it is |
| `Config.IsSpace` | src/learn_fastmcp/config.py:103 | the characters `str.strip()` removes: exactly those `str.isspace()` accepts (the ASCII controls 9-13 and 28-31, space, U+0085, U+00A0, U+1680, U+2000-U+200A, U+2028, U+2029, U+202F, U+205F, U+3000) |
| `Config.LowerChar` | src/learn_fastmcp/config.py:103 | an ASCII upper-case letter becomes the letter 32 code points higher; every other character is unchanged; whitespace stays whitespace and nothing else becomes whitespace |
| `Config.Lower` | src/learn_fastmcp/config.py:103 | `lower()` keeps the length, and the character at each index is the lower-cased input character at that index |
| `Config.LeadingSpace` | src/learn_fastmcp/config.py:103 | counts exactly the whitespace prefix: all of it is whitespace and the next character is not |
| `Config.TrailingSpace` | src/learn_fastmcp/config.py:103 | counts exactly the whitespace suffix: all of it is whitespace and the character before it is not |
| `Config.Strip` | src/learn_fastmcp/config.py:103 | `strip()` returns a slice of the input that has no whitespace at its ends; everything outside the slice is whitespace |
| `Config.StripPadded` | src/learn_fastmcp/config.py:103 | whitespace added on either side of a string does not change what `strip()` returns |
| `Config.LowerStripCommute` | src/learn_fastmcp/config.py:103 | lower-casing then stripping gives the same result as stripping then lower-casing |
| `Config.Normalize` | src/learn_fastmcp/config.py:103 | `v.lower().strip()` is the stripped form of the lower-cased `v`; it is lower-case, has no whitespace at either end and is no longer than `v` |
| `Config.NormalizeFixpoint` | src/learn_fastmcp/config.py:103 | a lower-case string with no whitespace at its ends is its own normal form |
| `Config.NormalizeIdempotent` | src/learn_fastmcp/config.py:103 | normalising an already normalised string changes nothing |
| `Config.NormalizeIgnoresPadding` | src/learn_fastmcp/config.py:103 | surrounding whitespace never affects the normalised transport string |
| `Config.NormalizeTransportValue` | src/learn_fastmcp/config.py:30-31 | the canonical transport strings are their own normal form |
| `Config.ValidateTransport` | src/learn_fastmcp/config.py:98-117 | an enum member yields its value. A string is accepted iff its normal form is `stdio` or `streamable-http`, and then the normal form is returned. Otherwise the error carries the normal form. No other outcome exists |
| `Config.ValidateTransportIdempotent` | src/learn_fastmcp/config.py:98-117 | re-validating an accepted result as a string gives the same result |
| `Config.ValidateTransportCaseAndPadding` | src/learn_fastmcp/config.py:102-103 | the outcome for `w1 + s + w2` with whitespace `w1`, `w2` equals the outcome for lower-case `s` |
| `Config.ValidateTransportCanonical` | tests/test_config.py:49-57 | `"stdio"` and `"streamable-http"` are accepted unchanged |
| `Config.ValidateTransportUpperCase` | tests/test_config.py:59-62 | `"STDIO"` is accepted as `"stdio"` |
| `Config.ValidateTransportPadded` | tests/test_config.py:64-67 | `"  stdio  "` is accepted as `"stdio"` |
| `Config.ValidateTransportUnknown` | tests/test_config.py:69-72 | `"invalid-transport"` is rejected, and the rejection carries that value |
| `Config.FieldMessage` | src/learn_fastmcp/config.py:112-114 | the rejection message of a transport is exactly `Invalid transport: '`, the normalised value, then `'. Must be one of ` and the set of valid transports; the message of a port error is exactly pydantic's `Input should be greater than or equal to ` or `Input should be less than or equal to ` followed by the decimal bound, `1` or `65535` |
| `Config.ValidPort` | src/learn_fastmcp/config.py:74-80 | the `ge=1, le=65535` constraint: 1 <= port <= 65535, both ends included |
| `Config.ValidatePort` | src/learn_fastmcp/config.py:75-81 | a port is accepted unchanged iff 1 <= port <= 65535. Otherwise the error names the violated bound |
| `Config.NewConfig` | src/learn_fastmcp/config.py:34-81 | construction succeeds iff every supplied transport and port is valid. Unsupplied fields take their defaults, which pass the same validators, and the host passes through unchanged. A failure lists exactly one error per failing field, transport before port |
| `Config.DefaultConfig` | src/learn_fastmcp/config.py:62-81 | with nothing supplied the configuration is (`streamable-http`, `0.0.0.0`, 8000) |
| `Config.PortBoundaries` | tests/test_config.py:74-90 | ports 1 and 65535 are accepted. Ports 0 and 65536 are rejected with the matching bound error |
| `Config.ToRunConfig` | src/learn_fastmcp/config.py:119-168 | `stdio` yields exactly `{transport: "stdio"}`. Any other transport yields exactly the keys transport, host and port, holding the configuration's own values |
| `Config.ToRunConfigDistinguishes` | src/learn_fastmcp/config.py:152-168 | two configurations have equal run parameters iff their transports are equal and, unless the transport is `stdio`, so are their hosts and ports |
| `Config.ToRunConfigTransportRoundTrip` | src/learn_fastmcp/config.py:145-149 | the transport in the run parameters is accepted again by the validator and names the configuration's transport |
| `Config.Repr` | src/learn_fastmcp/config.py:181-186 | the representation starts with `MCPConfig` and contains the transport value, the host and the decimal port |
| `Config.Describe` | src/learn_fastmcp/config.py:214 | the text of the construction failure is empty iff there are no field errors |
| `Config.MessageOffset` | src/learn_fastmcp/config.py:214 | every field error's message appears in the text of the construction failure, at the offset returned |
| `Config.LoadConfig` | src/learn_fastmcp/config.py:189-214 | it succeeds exactly when construction succeeds, with the same configuration. Otherwise the `ValueError` wraps the construction errors, and its message is `"Configuration error: "` followed by their text |
| `Config.LoadConfigInvalidTransport` | tests/test_config.py:191-195 | an unknown transport makes `load_config` fail with that one error, and the message quotes the normalised value |
| `Decimal.FromNat` | src/learn_fastmcp/config.py:185 | the rendering of a natural number is a non-empty string of digits with no leading zero |
| `Decimal.ValueOfFromNat` | src/learn_fastmcp/config.py:185 | reading a rendered number back gives the number |
| `Decimal.FromNatInjective` | src/learn_fastmcp/main.py:76 | distinct numbers have distinct renderings |
| `Series.SumTo` | src/learn_fastmcp/main.py:69-71 | adding 1, 2, ..., k one term at a time gives k(k+1)/2 |
| `Series.SumToStrictlyIncreasing` | main.py:114-116 | the running sums strictly increase |
| `Server.StreamSum` | src/learn_fastmcp/main.py:54-82 | the loop runs max(n, 0) times. `final_sum` is 1 + ... + max(n, 0), which is max(n, 0)(max(n, 0)+1)/2, and `steps` is n. There is exactly one report per i in 1..n, in order, carrying progress i, total n and the message for step i with running total i(i+1)/2 |
| `Server.ProgressMessage` | src/learn_fastmcp/main.py:76 | the message is exactly `Computed sum up to `, the step's decimal, `: ` and the running total's decimal |
| `Server.ProgressMessageDeterminesTotal` | src/learn_fastmcp/main.py:76 | a progress message determines the running total it reports |
| `Server.CliMain` | src/learn_fastmcp/main.py:85-124 | the exit status is 0 or 1. It is 0 iff the configuration loads and the run call returns or is interrupted, and 0 iff `main()` prints nothing. The run call gets exactly `to_run_config()` of the loaded configuration. A `ValueError` makes one `print` call to stderr whose text starts with `Configuration error: `, and any other exception makes one whose text starts with `Unexpected error: ` |
| `Server.ConfigFailureLine` | src/learn_fastmcp/main.py:114-117 | a configuration failure never reaches the run call and exits 1. The text of its one `print` call to stderr starts with `Configuration error: ` and repeats it |
| `DemoTools.Countdown` | main.py:71-76 | the yielded events are exactly start, start-1, ..., 1 and then done |
| `DemoTools.CountdownShape` | main.py:73-76 | there are max(start, 0) + 1 events, the k-th count is start - k, and the last event is done |
| `DemoTools.CountdownOrder` | main.py:73-76 | done is last and occurs exactly once; the counts before it are positive and strictly decreasing |
| `DemoTools.StreamSum` | main.py:111-118 | the yielded events are exactly the partial sums 1 + ... + k for k in 1..n, then the final sum |
| `DemoTools.SumEventsShape` | main.py:113-118 | there are max(n, 0) + 1 events, and the k-th partial sum is k(k+1)/2. The partial sums strictly increase, and the final sum equals the last partial sum, or 0 when n <= 0 |

## Left out

- Settings sources: reading `.env` files, case-insensitive environment variable names, the priority between keyword arguments, the environment and `.env`, and pydantic's string-to-integer coercion of `MCP_PORT`. These are pydantic-settings behaviour. `Config.Settings` stands for the values already resolved, with the port as an integer.
- Unicode case mapping. `Config.Lower` lower-cases ASCII letters only, while Python's `str.lower()` also maps non-ASCII letters. For inputs with non-ASCII upper-case letters the quoted value, and possibly the verdict, may differ. `Config.Strip` removes the full set of characters Python's `str.isspace()` accepts.
- Transport inputs that are neither a string nor a `TransportType`. The validator would raise `AttributeError` on these. Values from the environment are always strings, so they are not modelled.
- The text of pydantic's `ValidationError` (its header, field locations and error-type tags). `Config.Describe` renders only each field's message, one per line.
- The order in which Python prints the set of valid transports in the rejection message. This order depends on the interpreter's hash seed, so `Config.TransportSetText` fixes one order.
- Key order of the run-parameter dictionary. `Config.ToRunConfig` returns a map, which has no order. The dictionary of the source lists `transport` first.
- `log_config`, every `logger` call and `logging.basicConfig`. The handler that `logging.basicConfig` installs (src/learn_fastmcp/main.py:18-21) also writes to stderr. On a configuration failure that means an error record with a traceback (src/learn_fastmcp/config.py:213) and an error record (src/learn_fastmcp/main.py:115) come before the printed text; an unexpected error logs a traceback (src/learn_fastmcp/main.py:122). `Server.MainResult.printed` holds only the texts of the `print` calls, not these records.
- `add_tool` in both server modules. It is floating-point addition.
- `asyncio.sleep` and the asynchrony of `await ctx.report_progress` and of the generators. A progress report or a yielded event is modelled as one element appended to a sequence, with no timing.
- `app.run(...)` and the FastMCP framework. The run call is a black box, and `Server.RunOutcome` is the way it ends, given as an input. A keyboard interrupt is modelled only during that call.
- `scripts/client_http_streamable.py`. It is a network client, and its progress percentage is floating point.
