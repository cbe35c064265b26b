# Signal-to-execution handoff of eurusd-quant-engine, in Dafny

This project models the path a trading decision takes in the engine:

- A hypothesis (strategy) decides on each bar. `CompetitionHailMary` is the one modelled.
- The base class `Hypothesis` wraps every subclass's `on_bar` with a diagnostic hook. The hook logs non-HOLD decisions without changing them.
- An order is described by the frozen `ExecutionIntent` record.
- `serialize_intent` turns the record into compact JSON.
- `FileIntentSink` publishes that JSON into a spool directory. It writes a temporary file and then renames it.

Modules, one per file:

- `Wrappers`: `Option` and `Result`.
- `Digits`, `Floats`, `DateTimes`, `JsonText`: the parts of the Python library the serializer relies on.
  - decimal digits;
  - a finite float as mantissa and exponent;
  - `datetime.isoformat` and its inverse;
  - `json.dumps` of a flat object with `ensure_ascii` escaping and compact separators, with a parser that inverts it.
- `Dicts`: a `dict` as its items in insertion order, and its keys.
- `IntentSchema`: the record and its literal types.
- `IntentSerializer`: `asdict`, the timestamp stamping, `json.dumps`, and a decoder proved to invert them.
- `PosixFs`: a file system as a class whose path→node map the operations change. It models `mkdir(parents=True, exist_ok=True)`, `write_text` and `rename`, and keeps a tree shape as its invariant.
- `IntentSink`: the class `FileIntentSink`. `Open` is its `__init__` (partition bootstrap). `Emit` is `emit`: a write followed by a rename, with the intermediate state exposed as a ghost result.
- `MarketState`: the answers of the market view a hypothesis queries.
- `HypothesisBase`:
  - `IntentType` and `TradeIntent`;
  - `__init_subclass__` as a function over a chain of class definitions;
  - the class `Hypothesis`, with the cached diagnostic logger and the log of emitted records.
- `CompetitionHailMary`: parameters, regimes, and the `on_bar` decision. The indicator values are inputs.

In `serialize_intent` the timestamp field is declared `datetime`, but the code checks it for `None`. The model therefore makes it optional, and `None` is written as `null`.

The diagnostic hook catches only an exception from `current_bar()` (hypotheses/base.py:119-122). An exception raised later, for example by the `hypothesis_id` property during name lookup, propagates. The model follows the code: `SignalFor` and `LogSignalIntent` skip logging only when `current_bar()` raises.

## Model

| member | source | states |
|---|---|---|
| IntentSchema.SideValue | execution_live/intent_schema.py:7 | each side literal reads back as the same side, so `side` holds "BUY" or "SELL" and nothing else |
| IntentSchema.OrderTypeValue | execution_live/intent_schema.py:8 | the only order type reads back from "MARKET" |
| IntentSchema.OrderTypeFromValue | execution_live/intent_schema.py:8 | a text names an order type exactly when it is "MARKET" |
| IntentSchema.ModeValue | execution_live/intent_schema.py:9 | each mode literal reads back as the same mode, "PAPER" or "LIVE" |
| IntentSchema.FieldNamesDistinct | execution_live/intent_schema.py:14-24 | the record has eleven fields whose names are pairwise distinct |
| Dicts.Keys | execution_live/intent_serializer.py:8 | the keys of a dict are its item names, position by position |
| IntentSerializer.AsDict | execution_live/intent_serializer.py:8 | `asdict` yields exactly the eleven field names, in declaration order |
| IntentSerializer.Get | execution_live/intent_serializer.py:9 | `get` finds a value exactly when the key is present, and the value is one stored under that key |
| IntentSerializer.Set | execution_live/intent_serializer.py:11 | assigning keeps the key order (a new key goes last), and every item under another key keeps its value and position |
| IntentSerializer.SetGet | execution_live/intent_serializer.py:11 | after assigning, the key reads back the new value and every other key reads back what it held before |
| IntentSerializer.StampTimestamp | execution_live/intent_serializer.py:9-11 | a missing or `None` timestamp leaves the dict unchanged; a datetime is replaced by its `isoformat` text; any other value raises `AttributeError`; every other field is carried over unchanged |
| IntentSerializer.ToJsonValue | execution_live/intent_serializer.py:12 | `json.dumps` rejects exactly the datetime values |
| IntentSerializer.ToJson | execution_live/intent_serializer.py:12 | a dict encodes exactly when it holds no datetime; names and order are kept and each value is encoded |
| IntentSerializer.JsonDumps | execution_live/intent_serializer.py:12 | serializing succeeds exactly when no datetime remains |
| IntentSerializer.StampAsDict | execution_live/intent_serializer.py:8-12 | for every intent the stamping never raises and leaves nothing `json.dumps` rejects |
| IntentSerializer.SerializeIntent | execution_live/intent_serializer.py:7-12 | `serialize_intent` never raises for an intent, and its text is the compact object of the intent's eleven members in declaration order, the timestamp as ISO text or `null` |
| IntentSerializer.FromIntentMembers | execution_live/intent_serializer.py:8-12 | the members written for an intent decode back to that intent |
| IntentSerializer.SerializedMembers | execution_live/intent_serializer.py:7-12 | `json.loads` of the serialized text gives the intent's eleven members in declaration order |
| IntentSerializer.DecodeSerialize | execution_live/intent_serializer.py:7-12 | decoding the serialized text gives the intent back |
| IntentSerializer.SerializeInjective | execution_live/intent_serializer.py:7-12 | distinct intents never serialize to the same text |
| IntentSerializer.SerializedFieldOrder | execution_live/intent_serializer.py:8-12 | the text is one JSON object whose keys are the field names, each once, in declaration order |
| IntentSerializer.SerializedOptionalFields | execution_live/intent_serializer.py:9-12 | the timestamp is `null` exactly when absent, otherwise its ISO text; each optional price is `null` exactly when absent, so absent differs from 0 |
| IntentSerializer.SerializedCompact | execution_live/intent_serializer.py:12 | the text is printable ASCII; its only spaces are those inside keys and string values, so the separators carry no whitespace |
| JsonText.EscapeChar | execution_live/intent_serializer.py:12 | `ensure_ascii` escaping: a character is written as itself only when it is printable ASCII other than quote and backslash; every other character is written as an escape starting with a backslash |
| JsonText.EscapeCharText | execution_live/intent_serializer.py:12 | every escaped character is printable ASCII, and only a space produces a space |
| JsonText.ParseEscapeCharOf | execution_live/intent_serializer.py:12 | each escaped character, `\uXXXX` forms and surrogate pairs included, reads back as that character, whatever follows it |
| JsonText.ParseQuoteOf | execution_live/intent_serializer.py:12 | every quoted string parses back to the original string |
| JsonText.ParseDumps | execution_live/intent_serializer.py:12 | every compact object parses back to its members |
| JsonText.DumpsText | execution_live/intent_serializer.py:12 | a compact object is printable ASCII and has spaces only inside its keys and strings |
| Floats.ParseReprOf | execution_live/intent_serializer.py:12 | the number text of a float parses back to that float |
| DateTimes.IsoFormat | execution_live/intent_serializer.py:11 | the ISO text is 19 characters, plus 7 with microseconds, plus 6 with a UTC offset |
| DateTimes.ParseIsoFormatOf | execution_live/intent_serializer.py:11 | `fromisoformat(isoformat(d)) == d` for every valid datetime |
| PosixFs.AncestorsAreDirectories | execution_live/intent_sink.py:14 | in a tree-shaped file system every ancestor of an entry is a directory |
| PosixFs.WithDirsKeeps | execution_live/intent_sink.py:14 | `mkdir -p` keeps every existing entry and adds only directories along the path |
| PosixFs.WithDirsMakes | execution_live/intent_sink.py:14 | on an unblocked path every prefix, the path included, ends up a directory |
| PosixFs.WithDirsIdempotent | execution_live/intent_sink.py:14 | with `exist_ok=True`, a second `mkdir -p` of the same path changes nothing |
| PosixFs.BlockedWithDirs | execution_live/intent_sink.py:14 | creating directories makes no other path blocked or unblocked by a file |
| PosixFs.WithDirsTree | execution_live/intent_sink.py:14 | `mkdir -p` on an unblocked path keeps the tree shape |
| PosixFs.FileSystem.MakeDirs | execution_live/intent_sink.py:14 | `mkdir(parents=True, exist_ok=True)` succeeds exactly when no file lies along the path; it then creates exactly the missing directories. Otherwise it raises `FileExistsError` or `NotADirectoryError` and changes nothing |
| PosixFs.FileSystem.WriteText | execution_live/intent_sink.py:20 | `write_text` needs an existing parent directory (`FileNotFoundError`/`NotADirectoryError`) and a non-directory target (`IsADirectoryError`); it then stores exactly the text, or fails leaving nothing new or an empty file |
| PosixFs.FileSystem.Rename | execution_live/intent_sink.py:21 | `rename` of a file atomically removes the source and places its text at the destination, replacing a file there; each error case leaves the state unchanged |
| IntentSink.FirstBlocked | execution_live/intent_sink.py:13-14 | the first partition blocked by a file: every earlier one is unblocked |
| IntentSink.BlockedCreateAll | execution_live/intent_sink.py:13-14 | creating earlier partitions does not change whether a later one is blocked |
| IntentSink.CreateAllKeeps | execution_live/intent_sink.py:13-14 | creating the partitions keeps every old entry, adds only directories, and makes each unblocked partition a directory |
| IntentSink.PartitionsExist | execution_live/intent_sink.py:8-14 | after a successful construction `pending`, `done` and `failed` exist and every earlier entry, their contents included, is unchanged |
| IntentSink.FileIntentSink.constructor | execution_live/intent_sink.py:9-12 | the root and the three partition paths under it |
| IntentSink.FileIntentSink.Open | execution_live/intent_sink.py:8-14 | construction succeeds exactly when no partition is blocked and then performs the three `mkdir -p`; otherwise it raises the first partition's error and keeps the partitions created before it |
| IntentSink.FinalName | execution_live/intent_sink.py:17 | the published name is the id followed by `.json` |
| IntentSink.TmpName | execution_live/intent_sink.py:18 | the temporary name is the published name followed by `.tmp` |
| IntentSink.EntryNamesDistinct | execution_live/intent_sink.py:17-19 | distinct ids give distinct final and temporary names, and a temporary name is never a final name |
| IntentSink.Published | execution_live/intent_sink.py:20-21 | publishing adds exactly one entry, the final name holding the text, and changes no other entry |
| IntentSink.PublishedOnlyInPending | execution_live/intent_sink.py:16-21 | every path other than the new final entry, in `done`, `failed` or `pending`, is present and unchanged exactly as before |
| IntentSink.FileIntentSink.Emit | execution_live/intent_sink.py:16-21 | success exactly when `pending` is a directory and the write completes; the payload is then stored verbatim under `<id>.json` and the `.tmp` is gone. The intermediate state holds the `.tmp` and not the final name. On failure no final entry appears, though an empty `.tmp` may remain |
| HypothesisBase.IntentTypeValue | hypotheses/base.py:19-24 | each intent type reads back from its string value |
| HypothesisBase.NewTradeIntent | hypotheses/base.py:27-36 | a trade intent is constructed exactly when size > 0, for every type including HOLD, and carries the given type and size |
| HypothesisBase.DefaultSizeIntent | hypotheses/base.py:36 | the size defaults to 1.0 |
| HypothesisBase.DefaultPermitsAll | hypotheses/base.py:77-83 | the default empty `allowed_regimes` allows every regime |
| HypothesisBase.IsHold | hypotheses/base.py:38-39 | `is_hold` holds exactly when the intent's type is the one whose value is "HOLD" |
| HypothesisBase.LoggerName | hypotheses/base.py:136-139 | the logger sits under `hypotheses.base.` and ends with the class name, so each class logs under its own name |
| HypothesisBase.DirectionOf | hypotheses/base.py:124-130 | the direction is FLAT exactly for HOLD |
| HypothesisBase.DirectionInjective | hypotheses/base.py:124-130 | distinct intent types map to distinct directions |
| HypothesisBase.Confidence | hypotheses/base.py:132-134 | the intent's own confidence if it has one, otherwise its size |
| HypothesisBase.DisplayName | hypotheses/base.py:141 | the name falls back from `name` to `hypothesis_id` to the class name |
| HypothesisBase.TimestampText | hypotheses/base.py:142-143 | a bar's datetime is logged as its ISO text; a missing bar or timestamp is logged as "None" |
| HypothesisBase.SignalFor | hypotheses/base.py:114-152 | a record exists exactly when decisions are explained, the intent is present and not HOLD, and `current_bar()` did not raise; its direction (never FLAT), size, confidence, name and timestamp are as above |
| HypothesisBase.InitSubclass | hypotheses/base.py:55-69 | a plain callable `on_bar` is wrapped once; a flagged or non-callable one is left alone; the decision is unchanged |
| HypothesisBase.ClassOnBarWrapsOnce | hypotheses/base.py:55-69 | along any chain of subclasses `on_bar` is wrapped at most once, is wrapped whenever callable, and decides as the nearest written definition |
| HypothesisBase.Hypothesis.constructor | hypotheses/base.py:55-69 | an instance carries its class's resolved `on_bar`, and no logger or record yet |
| HypothesisBase.Hypothesis.LogSignalIntent | hypotheses/base.py:114-152 | appends exactly the record `SignalFor` describes, or nothing; the logger is created on first use and reused afterwards |
| HypothesisBase.Hypothesis.InvokeOnBar | hypotheses/base.py:63-66 | the wrapped `on_bar` returns exactly the decision, `None` included, after passing it to the hook; an exception propagates and logs nothing |
| CompetitionHailMary.TradesInEveryRegime | hypotheses/competition/competition_hail_mary.py:66-69 | no regime gating: every regime is allowed |
| CompetitionHailMary.Parameters | hypotheses/competition/competition_hail_mary.py:71-84 | the ten parameter names, in order |
| CompetitionHailMary.ParametersRoundTrip | hypotheses/competition/competition_hail_mary.py:71-84 | the parameters dict holds exactly the ten constructor values: the configuration is recovered from it |
| CompetitionHailMary.ParametersInjective | hypotheses/competition/competition_hail_mary.py:71-84 | distinct configurations report distinct parameters |
| CompetitionHailMary.Signal | hypotheses/competition/competition_hail_mary.py:160-173 | always BUY or SELL. Oversold on a rising candle gives BUY; otherwise overbought on a falling candle gives SELL; otherwise BUY exactly when the fast EMA is above the slow EMA |
| CompetitionHailMary.OverrideOrderIrrelevant | hypotheses/competition/competition_hail_mary.py:166-173 | the two overrides exclude each other, so checking the overbought one first gives the same signal |
| CompetitionHailMary.OverrideIgnoresMomentum | hypotheses/competition/competition_hail_mary.py:166-173 | when an override fires the EMAs do not affect the signal |
| CompetitionHailMary.RequiredBars | hypotheses/competition/competition_hail_mary.py:125 | the warm-up is ten bars more than the larger of `lookback` and `slow_period` |
| CompetitionHailMary.OnBar | hypotheses/competition/competition_hail_mary.py:85-181 | never returns `None` or CLOSE, and every intent has size 1.0. It raises `ZeroDivisionError` only for an EMA period of -1, and `IndexError` only for fewer than two bars (which needs `max(lookback, slow_period) + 10 <= 1`) or for an `rsi_period` below `1 - len(bars)` in Wilder's loop |
| CompetitionHailMary.WarmupHolds | hypotheses/competition/competition_hail_mary.py:124-127 | fewer than `max(lookback, slow_period) + 10` bars gives HOLD |
| CompetitionHailMary.ShortHistoryHolds | hypotheses/competition/competition_hail_mary.py:129-131 | no recent bars, or fewer than required, gives HOLD |
| CompetitionHailMary.PastWarmupTrades | hypotheses/competition/competition_hail_mary.py:94-181 | past the gates, with no error path taken, the result is a BUY or SELL of size 1.0 from the signal rule on the last candle |
| CompetitionHailMary.RsiPeriodOutOfRange | hypotheses/competition/competition_hail_mary.py:94-109 | past the gates, an `rsi_period` below `1 - len(bars)` skips the early return and raises `IndexError` in Wilder's loop |
| CompetitionHailMary.DefaultsNeverRaise | hypotheses/competition/competition_hail_mary.py:35-60 | with the default parameters `on_bar` always returns an intent |
| CompetitionHailMary.HailMaryWrapped | hypotheses/competition/competition_hail_mary.py:62-64 | defining the class wraps its `on_bar` once; the wrapper decides exactly as the body; diagnostics name it by the hypothesis id |

## Left out

- `quant/telebot/main.py`: a Telegram front end (handlers, database sessions, credentials, asyncio). It is user-interface I/O.
- Indicator numerics: `_ema`, `_calculate_rsi`, ATR, expansion and the cross flags. This is numpy floating point.
  - `CompetitionHailMary.OnBar` takes the last fast EMA, slow EMA and RSI from an uninterpreted function of the configuration and the bars.
  - A NaN RSI, which makes both override comparisons false, is not represented.
- The `print` debug line in `on_bar`, and the `%.4f` rendering of log lines. A log line is a `SignalRecord` appended to `Hypothesis.log`. Logger levels and handlers are not modelled.
- `uuid.uuid4()`: `Emit` takes the id as a parameter and requires that neither name derived from it exists yet. Collision probability is not modelled.
- File-system durability: there is no fsync, and crash behaviour is not modelled.
  - `FileSystem.WriteText`: a write that fails after `open` leaves an empty file. The partial content a real device may leave is not modelled.
  - `FileSystem.MakeDirs`: permission failures of `mkdir` are not modelled; only the file-in-the-way errors are.
  - `FileSystem.Rename`: requires that the source, when present, is a file. Renaming a directory subtree is not modelled.
  - Paths are absolute component lists. Relative paths, `..` and symbolic links are not modelled.
- `repr` of Python floats: `Floats.Repr` writes a finite float as `<mantissa>e<exponent>`. That is a valid JSON number, but not the shortest round-trip text `repr` chooses, and the model does not relate it to a binary float's value. Infinities and NaN are not modelled.
- `datetime`: UTC offsets are whole minutes. Offsets with seconds, and `isoformat` of a `datetime` subclass, are not modelled.
- Strings are sequences of Unicode scalar values, so lone surrogates are not represented.
- Python's runtime checks: `Literal` annotations are not checked at run time, but the model's datatypes admit only the listed literals. Pydantic coercion of inputs, for example a string "BUY" to `IntentType`, is not modelled beyond `IntentTypeFromValue`.
- `Hypothesis.__repr__`, the abstract `hypothesis_id`/`parameters` declarations, and the unused `_signal_logger` class attribute: none of them is behaviour the handoff depends on.
- The `position_state` and `clock` arguments of `on_bar`: `CompetitionHailMary` does not read them.
- `state/market_state.py`, `market/regime.py` and the execution consumer that moves files from `pending` to `done`/`failed` are not part of this model.
- `HypothesisBase.Hypothesis.LogSignalIntent`: an exception raised inside the hook after `current_bar()`, for example by a `hypothesis_id` property, is not modelled. Neither is a `super().on_bar` call inside a subclass body, which would log once per wrapper reached.
