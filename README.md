# Webhook payload normaliser (AlphaOps CME sandbox)

A Dafny model of the payload-normalisation pipeline of the AlphaOps CME
webhook sandbox (`app/app.py`). TradingView alerts reach the service as JSON,
as a form field, or as loose `k:v, k2:v2` text. The pipeline turns each one
into a canonical RSI or CVD row:

1. `parse_body` recovers a mapping from the request (JSON body, then form
   fields `payload` and `message`, then the raw text, then `{"raw": text}`).
   It uses the tolerant text parser `maybe_json`.
2. `auth_ok` checks the shared secret.
3. `map_rsi` or `map_cvd` builds the row. Each field is looked up under
   several aliases with `pick`, numbers are coerced with `fnum`, the
   timestamp is normalised with `utc_iso`, and the row carries the
   `natural_key` `symbol:tf:ts` that the store merges on.
4. For CVD rows, a delta of at least 1500 in absolute value pings the CME
   chat channel.

Modules:

- `Values`: the value datatype of a decoded body, Python's `str()` of a
  value, and the `Lib` bundle. `Lib` holds the library services the pipeline
  calls but does not implement: `json.loads`, `float(str)`, the ISO-8601
  parse-and-convert chain, and float rendering. Each is a total function that
  answers `None` where the library raises.
- `Strings`: `str.strip()` with Python's whitespace set, `str.split(",")`,
  `p.split(":", 1)` unpacked into two names, and `str.replace`.
- `Recovery`: `maybe_json` and `parse_body`. Both are written twice: as
  specification functions, and as methods with the source's loops, each
  proved equal to its function.
- `Fields`: `auth_ok`, `pick` (again a function plus a method with the
  loop), `fnum` and `utc_iso`.
- `Rows`: `map_rsi`, `map_cvd`, the natural key with its inverse, the
  high-delta rule, and the decisions of the two ingest handlers. It also
  holds worked examples.

Inputs the source reads from its surroundings are parameters:

- the environment (`ALPHAOPS_SECRET`, the parsed `RELAXED_AUTH` flag, the
  two webhook URLs) is a `Config`;
- the clock reading is `now`;
- the request is reduced to the JSON decoding outcome, the form fields (or
  `None` when reading the form raised) and the raw text.

The model follows `app/app.py` where descriptions of the service differ:

- the RSI symbol default is `"BTC1!"`;
- the CVD row stores its source under `src` and has no `exchange` field.

In one place the model departs from `app/app.py` on purpose: the recovery
cascade the handlers use takes a JSON body only when it is an object, as the
cascade is meant to (see Findings, and `Recovery.ParseBody` under Left out).

## Model

| member | source | states |
|---|---|---|
| Strings.TrimBlank | app/app.py:69-70 | `strip()` leaves nothing exactly when the text is all whitespace, so blank input gives `None` |
| Strings.TrimEnds | app/app.py:69 | what `strip()` keeps begins and ends with a non-whitespace character |
| Strings.TrimSlice | app/app.py:69 | what `strip()` keeps is a contiguous run of the input after the leading whitespace, followed only by whitespace |
| Strings.TrimUnchanged | app/app.py:69 | text with no whitespace at either end is unchanged by `strip()` |
| Strings.SplitFirst | app/app.py:78 | `p.split(":", 1)` unpacks exactly when `p` holds a ':'; then `p` is head + ':' + tail with a colon-free head |
| Strings.SplitFirstJoin | app/app.py:78 | splitting at the first ':' undoes joining a colon-free key to any value, colons in the value included |
| Strings.SplitSepFree | app/app.py:77 | no piece of `t.split(",")` holds a comma |
| Strings.SplitJoinBack | app/app.py:77 | joining the pieces of `t.split(",")` with commas restores `t`, empty pieces included |
| Strings.SplitCons | app/app.py:77 | a comma-free head followed by a comma splits off as its own piece |
| Strings.SplitJoin | app/app.py:77 | splitting undoes joining whenever no piece holds the separator |
| Strings.Trim | app/app.py:69 | `strip()`, defined through the whitespace counts at either end; its properties are the four `Trim` lemmas above |
| Strings.Split | app/app.py:77 | `t.split(",")` always gives at least one piece; `SplitSepFree` and `SplitJoinBack` determine the pieces |
| Strings.ReplaceAll | app/app.py:48 | after replacing every 'Z' by "+00:00" no 'Z' remains, and text without 'Z' is unchanged |
| Strings.ReplaceAllAppend | app/app.py:48 | replacing in a concatenation is replacing in each part, so the text is rewritten character by character in order |
| Strings.ReplaceAllChar | app/app.py:48 | a single 'Z' becomes "+00:00" and any other character stays as it is |
| Recovery.ParsedText | app/app.py:68-83 | what `maybe_json` returns: strip, blank gives `None`, braced text goes to the JSON decoder, `k:v` lists are split on every comma and built into a dictionary; its properties are `ParsedTextNone` and `ParsedTextPairs` |
| Recovery.ParsedTextNone | app/app.py:68-83 | `maybe_json` gives `None` exactly when the text is blank, or braced and rejected by the JSON decoder, or unbraced without both ':' and ',', or has a comma segment (an empty trailing one included) without ':' |
| Recovery.ParsedTextPairs | app/app.py:74-82 | for `k:v` lists, the keys are the stripped heads of the segments, each value is the stripped text after the first ':', and the last segment with a key decides its value |
| Recovery.BuildKeys | app/app.py:76-79 | the dictionary the loop builds has exactly the keys assigned |
| Recovery.BuildLastWins | app/app.py:79 | a later assignment to the same key overwrites an earlier one |
| Recovery.EntriesKeys | app/app.py:76-80 | the pairs of the comma loop give the segment keys, and the last segment with a key gives its value |
| Recovery.MaybeJson | app/app.py:68-83 | the loop over comma segments, with its early `None` on a segment without ':', returns what the specification function `ParsedText` gives |
| Recovery.FromForm | app/app.py:92-95 | the form stage: the parse of the first listed field that is present and accepted, else nothing; its properties are `FromFormFirst` and `FromFormNone` |
| Recovery.FromFormFirst | app/app.py:92-95 | the first of `payload`, `message` that is present and accepted by `maybe_json` decides the form stage |
| Recovery.FromFormNone | app/app.py:92-96 | when no form field is accepted the form stage yields nothing and the cascade goes on |
| Recovery.Fallback | app/app.py:89-100 | after the JSON attempt: the form stage, else `maybe_json` of the raw text, else `{"raw": raw.strip()}`; the result is always a mapping |
| Recovery.Recovered | app/app.py:85-100 | the corrected cascade: a JSON object body wins, any other request falls through to the form and raw-text stages |
| Recovery.RecoveredAsWritten | app/app.py:85-100 | as written: any decoded JSON body is returned unchanged, whatever its shape |
| Recovery.RecoveredAgrees | app/app.py:86-88 | the written and the corrected cascade agree on every request whose body is not JSON or is a JSON object |
| Recovery.RecoveredAsWrittenNotMapping | app/app.py:87 | the body `58.2` makes the written cascade return a number, where the corrected one returns `{"raw": "58.2"}` |
| Recovery.ParseBody | app/app.py:85-100 | the cascade with its loop over the form keys returns what `Recovered` specifies |
| Fields.Get | app/app.py:105 | `d.get(k)`: the value under `k`, or `None` when `k` is absent |
| Fields.AuthOk | app/app.py:102-105 | relaxed mode or an empty secret accept every body; otherwise a body passes exactly when `auth` or `sec` holds the secret as a string |
| Fields.AuthOkIgnoresOtherFields | app/app.py:105 | fields other than `auth` and `sec` never change the authentication outcome |
| Fields.FirstPresent | app/app.py:107-110 | the result is the default or the value of some alias present with a value other than `None` and `""` |
| Fields.FirstPresentFirst | app/app.py:108-109 | the first qualifying alias decides, whatever later aliases hold |
| Fields.FirstPresentNone | app/app.py:110 | when no alias qualifies (absent, `None` or `""`) the default is returned |
| Fields.FirstPresentAppend | app/app.py:107-110 | looking up `ks1 + ks2` is looking up `ks1` with the lookup of `ks2` as default: earlier aliases shadow later ones |
| Fields.Pick | app/app.py:107-110 | the loop with its early return computes `FirstPresent` |
| Fields.ToFloat | app/app.py:112-119 | `None` gives the default; a bool, int or float gives that number; a list or dict gives the default; a blank or unparsable string gives the default; any other string gives its parsed stripped text |
| Fields.UtcIso | app/app.py:45-51 | a non-empty string the ISO parser accepts after `Z` becomes `+00:00` gives that instant in UTC; anything else gives the current time |
| Values.Text | app/app.py:131-134 | Python's `str()` (and f-string rendering) of a field value: `None`, `True`/`False`, the decimal digits of an int, the library's float text, a string itself |
| Rows.NaturalKey | app/app.py:134 | the f-string key `symbol:tf:ts`; its inverse is `SplitKey`, see the next rows |
| Rows.NaturalKeySymbolMatters | app/app.py:134 | for any parts, colons included, two different symbols give different keys |
| Rows.NaturalKeyTfMatters | app/app.py:134 | for any parts, two different timeframes give different keys |
| Rows.NaturalKeyTsMatters | app/app.py:134 | for any parts, two different timestamps give different keys |
| Rows.NaturalKeyRoundTrip | app/app.py:134 | with a colon-free symbol and timeframe, splitting the natural key at its first two ':' gives symbol, timeframe and timestamp back |
| Rows.NaturalKeyInjective | app/app.py:134 | rows with colon-free symbols and timeframes share a natural key only if symbol, timeframe and timestamp all agree |
| Rows.NaturalKeyCollision | app/app.py:134 | without that proviso two different rows can share a key: `BTC:1m`/`x` and `BTC`/`1m:x` |
| Rows.MapRsi | app/app.py:122-135 | each text field is `str()` of the first qualifying alias (`pick`), each number is `fnum` of it, ts is `utc_iso` of the first qualifying timestamp alias; payload is the input mapping; the natural key is symbol, tf and the stored ts joined by ':'; with no qualifying alias, ts is the clock reading and fields take `BTC1!`, `1m`, `0.0`, `CME`, `tradingview` |
| Rows.MapCvd | app/app.py:137-151 | the same for CVD rows, with price, volume, delta and cvd through `fnum` (default `0.0`) and the source under `src` |
| Rows.RsiKeyRoundTrip | app/app.py:129-134 | an RSI row's natural key splits back into the row's own symbol, tf and ts when they are colon-free |
| Rows.CvdKeyRoundTrip | app/app.py:145-150 | a CVD row's natural key splits back into the row's own symbol, tf and ts when they are colon-free |
| Rows.PingsCme | app/app.py:186 | the CME ping goes out exactly when the delta is at least 1500 or at most -1500 and the CME webhook URL is set |
| Rows.IngestRsi | app/app.py:157-173 | a body failing `auth_ok` is refused; otherwise the row is `map_rsi` of the recovered body, and the status channel is posted to exactly when its URL is set |
| Rows.IngestCvd | app/app.py:175-189 | a body failing `auth_ok` is refused; otherwise the row is `map_cvd` of the recovered body, pinged exactly when the high-delta rule holds |
| Rows.AlertRow | app/app.py:122-135 | a typical alert body maps to the row with its symbol and tf, the parsed RSI string, its distance, the defaults `CME` and `tradingview`, and the clock reading as ts |
| Rows.AlertExample | app/app.py:157-169 | that body carrying the configured secret is accepted with that row |
| Rows.WrongSecretExample | app/app.py:160 | the same body with a wrong secret is refused |
| Rows.EmptyAliasExample | app/app.py:123 | `symbol: ""` does not shadow `ticker` |
| Rows.EmptyRequestExample | app/app.py:137-151 | an empty request with no secret configured is accepted with every default and payload `{"raw": ""}` |
| Rows.LargeDeltaExample | app/app.py:186 | a delta of -2000 pings the CME channel when its URL is set |
| Rows.SmallDeltaExample | app/app.py:186 | a delta of -500 never does |

## Left out

- The FastAPI routes, `HTTPException` and the reading of the request (`req.json()`, `req.form()`, `req.body()` with its UTF-8 decoding): the handlers are modelled as the decision they take over the recovered inputs.
- The `/health` route: it only returns the clock reading.
- `save_line` and `post_discord`: asynchronous file and network I/O whose errors are swallowed; the model records only whether a message would be posted.
- The Supabase client and its `upsert` on `natural_key`: a foreign library and network calls.
- Reading the environment, the parsing of `RELAXED_AUTH` (which relies on Unicode `lower()`) and `os.makedirs`: the resulting values are the `Config` parameter.
- The bodies of `json.loads`, `float(str)`, `datetime.fromisoformat`/`astimezone`/`isoformat` and Python's float-to-text rendering: they are the abstract functions of `Lib`.
- The text of the chat messages, with its `:.1f` and `:.0f` float formatting.
- The top-level `app.py`: an older, truncated revision of the service whose mapping sits inside its network call.
- Fields.ToFloat: an int is taken as its exact value; Python's rounding of large ints to a double, and the default returned when `float(int)` overflows, are not modelled.
- Fields.ToFloat: floating point as such (NaN, infinities, rounding) is not modelled; numbers are reals.
- Values.Text: Python's limit on the number of digits `str()` renders for a huge int is not modelled.
- Recovery.ParseBody: follows the corrected cascade, so a JSON body that is not an object falls through to the form and raw-text stages; the source hands that value on as the body, which then either fails in `auth_ok` or `pick` (HTTP 500) or, with no secret enforced and no alias occurring in a JSON string or array, gives an all-defaults row whose payload is that string or array.
- Rows.IngestRsi: built on the corrected cascade; for a non-object JSON body the source answers HTTP 500 when `auth_ok` or `pick` fails on it, or stores an all-defaults row whose payload is the string or array itself, and neither is an `Outcome` of the model.
- Rows.IngestCvd: built on the corrected cascade; for a non-object JSON body the source answers HTTP 500 when `auth_ok` or `pick` fails on it, or stores an all-defaults row whose payload is the string or array itself, and neither is an `Outcome` of the model.
- Form fields are the strings `str()` makes of them; an uploaded file and multi-valued fields are not distinguished.

## Findings

| source | as written | input that shows it | evidently intended | confidence | as-written member | corrected member |
|---|---|---|---|---|---|---|
| app/app.py:87 | `parse_body` returns whatever `req.json()` decodes, an array, number, string or `null` included; `auth_ok` then fails on it whenever a secret is enforced, and `pick` fails on numbers, booleans and `null`, and on strings or arrays when an alias occurs in them | a request whose body is the JSON number `58.2` | only a JSON object is taken as the body; anything else falls through to the form and raw-text stages, giving `{"raw": "58.2"}` | medium, not executed | Recovery.RecoveredAsWritten, Recovery.RecoveredAsWrittenNotMapping | Recovery.Recovered |
