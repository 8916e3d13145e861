/**
 The mappers `map_rsi` and `map_cvd`, which turn a recovered body into a
 canonical row, the `natural_key` identity the rows carry, and the decisions
 the two ingest handlers take around them: refuse an unauthenticated body,
 and for CVD rows ping the high-signal webhook on a large delta.
 */
module Rows {

  import opened Values
  import opened Strings
  import opened Fields
  import opened Recovery

  // The aliases each canonical field is looked up under, in priority order.
  const SymbolKeys: seq<string> := ["symbol", "s", "ticker"]
  const TfKeys: seq<string> := ["tf", "interval", "i"]
  const RsiKeys: seq<string> := ["rsi", "r"]
  const DistKeys: seq<string> := ["dist_d_bps", "dist_bps", "d_bps"]
  const ExchangeKeys: seq<string> := ["exchange", "ex"]
  const TimestampKeys: seq<string> := ["timestamp", "ts", "timenow", "time"]
  const SourceKeys: seq<string> := ["source", "src"]
  const PriceKeys: seq<string> := ["price", "p"]
  const VolumeKeys: seq<string> := ["volume", "v"]
  const DeltaKeys: seq<string> := ["delta", "d", "Δ"]
  const CvdKeys: seq<string> := ["cvd", "cum_delta", "cum"]

  /** The dictionary `map_rsi` returns. */
  datatype RsiRow = RsiRow(
    ts: string, symbol: string, tf: string, rsi: real, distBps: real,
    exchange: string, source: string, payload: Body, naturalKey: string)

  /** The dictionary `map_cvd` returns; it names its source field `src` and has
      no exchange. */
  datatype CvdRow = CvdRow(
    ts: string, symbol: string, tf: string, price: real, volume: real,
    delta: real, cvd: real, src: string, payload: Body, naturalKey: string)

  /** The key the store merges rows on: `f"{symbol}:{tf}:{ts}"`. */
  function NaturalKey(symbol: string, tf: string, ts: string): string
  {
    symbol + ":" + tf + ":" + ts
  }

  /** Reads a natural key back by splitting at its first two ':'. */
  function SplitKey(key: string): Option<(string, string, string)>
  {
    match SplitFirst(key, ':')
    case None => None
    case Some((symbol, rest)) =>
      match SplitFirst(rest, ':')
      case None => None
      case Some((tf, ts)) => Some((symbol, tf, ts))
  }

  /** A natural key built from a symbol and a timeframe free of ':' gives its
      three parts back (the timestamp may hold ':', as ISO times do). */
  lemma NaturalKeyRoundTrip(symbol: string, tf: string, ts: string)
    requires ':' !in symbol && ':' !in tf
    ensures SplitKey(NaturalKey(symbol, tf, ts)) == Some((symbol, tf, ts))
  {
    assert NaturalKey(symbol, tf, ts) == symbol + [':'] + (tf + [':'] + ts);
    SplitFirstJoin(symbol, ':', tf + [':'] + ts);
    SplitFirstJoin(tf, ':', ts);
  }

  /** Hence two rows whose symbols and timeframes hold no ':' share a natural
      key only when symbol, timeframe and timestamp all agree. */
  lemma NaturalKeyInjective(s1: string, tf1: string, ts1: string, s2: string, tf2: string, ts2: string)
    requires ':' !in s1 && ':' !in tf1 && ':' !in s2 && ':' !in tf2
    requires NaturalKey(s1, tf1, ts1) == NaturalKey(s2, tf2, ts2)
    ensures s1 == s2 && tf1 == tf2 && ts1 == ts2
  {
    NaturalKeyRoundTrip(s1, tf1, ts1);
    NaturalKeyRoundTrip(s2, tf2, ts2);
  }

  /** Without that proviso the key is ambiguous: symbol `BTC:1m` with
      timeframe `x` and symbol `BTC` with timeframe `1m:x` give one key. */
  lemma NaturalKeyCollision(ts: string)
    ensures NaturalKey("BTC:1m", "x", ts) == NaturalKey("BTC", "1m:x", ts)
  {
  }

  /** Whatever the parts hold, colons included, changing the symbol alone
      changes the key: the rest of the key is a common suffix. */
  lemma NaturalKeySymbolMatters(s1: string, s2: string, tf: string, ts: string)
    requires s1 != s2
    ensures NaturalKey(s1, tf, ts) != NaturalKey(s2, tf, ts)
  {
    var suffix := ":" + tf + ":" + ts;
    assert NaturalKey(s1, tf, ts) == s1 + suffix;
    assert NaturalKey(s2, tf, ts) == s2 + suffix;
    if |s1| == |s2| {
      assert (s1 + suffix)[..|s1|] == s1;
      assert (s2 + suffix)[..|s2|] == s2;
    }
  }

  /** Changing the timeframe alone changes the key. */
  lemma NaturalKeyTfMatters(symbol: string, tf1: string, tf2: string, ts: string)
    requires tf1 != tf2
    ensures NaturalKey(symbol, tf1, ts) != NaturalKey(symbol, tf2, ts)
  {
    var prefix := symbol + ":";
    var suffix := ":" + ts;
    assert NaturalKey(symbol, tf1, ts) == prefix + tf1 + suffix;
    assert NaturalKey(symbol, tf2, ts) == prefix + tf2 + suffix;
    if |tf1| == |tf2| {
      assert (prefix + tf1 + suffix)[|prefix|..|prefix| + |tf1|] == tf1;
      assert (prefix + tf2 + suffix)[|prefix|..|prefix| + |tf2|] == tf2;
    }
  }

  /** Changing the timestamp alone changes the key: the rest of the key is a
      common prefix. */
  lemma NaturalKeyTsMatters(symbol: string, tf: string, ts1: string, ts2: string)
    requires ts1 != ts2
    ensures NaturalKey(symbol, tf, ts1) != NaturalKey(symbol, tf, ts2)
  {
    var prefix := symbol + ":" + tf + ":";
    assert NaturalKey(symbol, tf, ts1) == prefix + ts1;
    assert NaturalKey(symbol, tf, ts2) == prefix + ts2;
    assert (prefix + ts1)[|prefix|..] == ts1;
    assert (prefix + ts2)[|prefix|..] == ts2;
  }

  /** No alias of the list qualifies in `d`. */
  predicate Missing(d: Body, keys: seq<string>)
  {
    forall j :: 0 <= j < |keys| ==> !Qualifies(d, keys[j])
  }

  /** With no qualifying alias, the lookup falls back to its default. */
  lemma MissingDefault(d: Body, keys: seq<string>, default: Value)
    ensures Missing(d, keys) ==> FirstPresent(d, keys, default) == default
  {
    if Missing(d, keys) {
      FirstPresentNone(d, keys, default);
    }
  }

  /** A text field with no qualifying alias is its default. */
  lemma TextDefault(lib: Lib, d: Body, keys: seq<string>, default: string)
    ensures Missing(d, keys) ==> Text(lib, FirstPresent(d, keys, Str(default))) == default
  {
    MissingDefault(d, keys, Str(default));
  }

  /** A numeric field with no qualifying alias is `0.0`. */
  lemma NumberDefault(lib: Lib, d: Body, keys: seq<string>)
    ensures Missing(d, keys) ==> ToFloat(lib, FirstPresent(d, keys, Float(0.0)), 0.0) == 0.0
  {
    MissingDefault(d, keys, Float(0.0));
  }

  /** With no qualifying timestamp alias the row time is the clock reading. */
  lemma TimestampDefault(lib: Lib, now: string, d: Body)
    ensures Missing(d, TimestampKeys) ==> UtcIso(lib, now, FirstPresent(d, TimestampKeys, Null)) == now
  {
    MissingDefault(d, TimestampKeys, Null);
  }

  /** `map_rsi(d)`: each text field is `str()` of its first qualifying alias
      (or of its default), each number is `fnum` of it, and the timestamp is
      `utc_iso` of the first qualifying timestamp alias. */
  function MapRsi(lib: Lib, now: string, d: Body): (row: RsiRow)
    ensures row.payload == d
    ensures row.ts == UtcIso(lib, now, FirstPresent(d, TimestampKeys, Null))
    ensures row.symbol == Text(lib, FirstPresent(d, SymbolKeys, Str("BTC1!")))
    ensures row.tf == Text(lib, FirstPresent(d, TfKeys, Str("1m")))
    ensures row.rsi == ToFloat(lib, FirstPresent(d, RsiKeys, Float(0.0)), 0.0)
    ensures row.distBps == ToFloat(lib, FirstPresent(d, DistKeys, Float(0.0)), 0.0)
    ensures row.exchange == Text(lib, FirstPresent(d, ExchangeKeys, Str("CME")))
    ensures row.source == Text(lib, FirstPresent(d, SourceKeys, Str("tradingview")))
    ensures row.naturalKey == row.symbol + ":" + row.tf + ":" + row.ts
    ensures Missing(d, TimestampKeys) ==> row.ts == now
    ensures Missing(d, SymbolKeys) ==> row.symbol == "BTC1!"
    ensures Missing(d, TfKeys) ==> row.tf == "1m"
    ensures Missing(d, RsiKeys) ==> row.rsi == 0.0
    ensures Missing(d, DistKeys) ==> row.distBps == 0.0
    ensures Missing(d, ExchangeKeys) ==> row.exchange == "CME"
    ensures Missing(d, SourceKeys) ==> row.source == "tradingview"
  {
    TimestampDefault(lib, now, d);
    TextDefault(lib, d, SymbolKeys, "BTC1!");
    TextDefault(lib, d, TfKeys, "1m");
    NumberDefault(lib, d, RsiKeys);
    NumberDefault(lib, d, DistKeys);
    TextDefault(lib, d, ExchangeKeys, "CME");
    TextDefault(lib, d, SourceKeys, "tradingview");
    var symbol := Text(lib, FirstPresent(d, SymbolKeys, Str("BTC1!")));
    var tf := Text(lib, FirstPresent(d, TfKeys, Str("1m")));
    var ts := UtcIso(lib, now, FirstPresent(d, TimestampKeys, Null));
    RsiRow(
      ts, symbol, tf,
      ToFloat(lib, FirstPresent(d, RsiKeys, Float(0.0)), 0.0),
      ToFloat(lib, FirstPresent(d, DistKeys, Float(0.0)), 0.0),
      Text(lib, FirstPresent(d, ExchangeKeys, Str("CME"))),
      Text(lib, FirstPresent(d, SourceKeys, Str("tradingview"))),
      d, NaturalKey(symbol, tf, ts))
  }

  /** `map_cvd(d)`, built the same way from its own aliases. */
  function MapCvd(lib: Lib, now: string, d: Body): (row: CvdRow)
    ensures row.payload == d
    ensures row.ts == UtcIso(lib, now, FirstPresent(d, TimestampKeys, Null))
    ensures row.symbol == Text(lib, FirstPresent(d, SymbolKeys, Str("BTC1!")))
    ensures row.tf == Text(lib, FirstPresent(d, TfKeys, Str("1m")))
    ensures row.price == ToFloat(lib, FirstPresent(d, PriceKeys, Float(0.0)), 0.0)
    ensures row.volume == ToFloat(lib, FirstPresent(d, VolumeKeys, Float(0.0)), 0.0)
    ensures row.delta == ToFloat(lib, FirstPresent(d, DeltaKeys, Float(0.0)), 0.0)
    ensures row.cvd == ToFloat(lib, FirstPresent(d, CvdKeys, Float(0.0)), 0.0)
    ensures row.src == Text(lib, FirstPresent(d, SourceKeys, Str("tradingview")))
    ensures row.naturalKey == row.symbol + ":" + row.tf + ":" + row.ts
    ensures Missing(d, TimestampKeys) ==> row.ts == now
    ensures Missing(d, SymbolKeys) ==> row.symbol == "BTC1!"
    ensures Missing(d, TfKeys) ==> row.tf == "1m"
    ensures Missing(d, PriceKeys) ==> row.price == 0.0
    ensures Missing(d, VolumeKeys) ==> row.volume == 0.0
    ensures Missing(d, DeltaKeys) ==> row.delta == 0.0
    ensures Missing(d, CvdKeys) ==> row.cvd == 0.0
    ensures Missing(d, SourceKeys) ==> row.src == "tradingview"
  {
    TimestampDefault(lib, now, d);
    TextDefault(lib, d, SymbolKeys, "BTC1!");
    TextDefault(lib, d, TfKeys, "1m");
    NumberDefault(lib, d, PriceKeys);
    NumberDefault(lib, d, VolumeKeys);
    NumberDefault(lib, d, DeltaKeys);
    NumberDefault(lib, d, CvdKeys);
    TextDefault(lib, d, SourceKeys, "tradingview");
    var symbol := Text(lib, FirstPresent(d, SymbolKeys, Str("BTC1!")));
    var tf := Text(lib, FirstPresent(d, TfKeys, Str("1m")));
    var ts := UtcIso(lib, now, FirstPresent(d, TimestampKeys, Null));
    CvdRow(
      ts, symbol, tf,
      ToFloat(lib, FirstPresent(d, PriceKeys, Float(0.0)), 0.0),
      ToFloat(lib, FirstPresent(d, VolumeKeys, Float(0.0)), 0.0),
      ToFloat(lib, FirstPresent(d, DeltaKeys, Float(0.0)), 0.0),
      ToFloat(lib, FirstPresent(d, CvdKeys, Float(0.0)), 0.0),
      Text(lib, FirstPresent(d, SourceKeys, Str("tradingview"))),
      d, NaturalKey(symbol, tf, ts))
  }

  /** The high-signal ping of the CVD handler goes out exactly when the row's
      delta is at least 1500 in absolute value and the CME webhook URL is set. */
  function PingsCme(cfg: Config, row: CvdRow): (send: bool)
    ensures send <==> (row.delta >= 1500.0 || row.delta <= -1500.0) && cfg.cmeWebhook != ""
  {
    Abs(row.delta) >= 1500.0 && cfg.cmeWebhook != ""
  }

  function Abs(x: real): real
  {
    if x < 0.0 then -x else x
  }

  /** What a handler decides for one request: refuse it, or accept it with the
      row it stores and whether it posts a chat message. */
  datatype Outcome<R> = Unauthorized | Accepted(row: R, notify: bool)

  /** `ingest_cme_rsi` (and its alias `ingest_test`): recover the body, check
      the secret, map the row; the status channel is posted to when its URL
      is set. */
  function IngestRsi(cfg: Config, lib: Lib, now: string, json: Option<Json>,
                     form: Option<map<string, string>>, raw: string): (o: Outcome<RsiRow>)
    ensures var d := Recovered(lib, json, form, raw);
      && (o.Unauthorized? <==> !AuthOk(cfg, d))
      && (o.Accepted? ==> o.row == MapRsi(lib, now, d) && (o.notify <==> cfg.statusWebhook != ""))
  {
    var d := Recovered(lib, json, form, raw);
    if !AuthOk(cfg, d) then Unauthorized
    else Accepted(MapRsi(lib, now, d), cfg.statusWebhook != "")
  }

  /** `ingest_cme_cvd`: recover the body, check the secret, map the row; the
      CME channel is pinged on a large delta. */
  function IngestCvd(cfg: Config, lib: Lib, now: string, json: Option<Json>,
                     form: Option<map<string, string>>, raw: string): (o: Outcome<CvdRow>)
    ensures var d := Recovered(lib, json, form, raw);
      && (o.Unauthorized? <==> !AuthOk(cfg, d))
      && (o.Accepted? ==> o.row == MapCvd(lib, now, d) && (o.notify <==> PingsCme(cfg, o.row)))
  {
    var d := Recovered(lib, json, form, raw);
    if !AuthOk(cfg, d) then Unauthorized
    else
      var row := MapCvd(lib, now, d);
      Accepted(row, PingsCme(cfg, row))
  }

  /** The row's natural key gives the row's own symbol, timeframe and timestamp
      back whenever the symbol and timeframe hold no ':'. */
  lemma RsiKeyRoundTrip(lib: Lib, now: string, d: Body)
    requires var row := MapRsi(lib, now, d); ':' !in row.symbol && ':' !in row.tf
    ensures var row := MapRsi(lib, now, d); SplitKey(row.naturalKey) == Some((row.symbol, row.tf, row.ts))
  {
    var row := MapRsi(lib, now, d);
    NaturalKeyRoundTrip(row.symbol, row.tf, row.ts);
  }

  lemma CvdKeyRoundTrip(lib: Lib, now: string, d: Body)
    requires var row := MapCvd(lib, now, d); ':' !in row.symbol && ':' !in row.tf
    ensures var row := MapCvd(lib, now, d); SplitKey(row.naturalKey) == Some((row.symbol, row.tf, row.ts))
  {
    var row := MapCvd(lib, now, d);
    NaturalKeyRoundTrip(row.symbol, row.tf, row.ts);
  }

  /** A typical TradingView alert body: the secret, the symbol, the timeframe,
      the RSI as a string and the distance as a number. */
  function AlertBody(): Body
  {
    map["auth" := Str("S3CRET"), "symbol" := Str("BTCUSD.P"), "tf" := Str("1m"),
        "rsi" := Str("58.2"), "dist_d_bps" := Float(127.0 / 10.0)]
  }

  /** The aliases of the alert body that qualify, and those that do not. */
  lemma AlertLookups(lib: Lib)
    ensures FirstPresent(AlertBody(), SymbolKeys, Str("BTC1!")) == Str("BTCUSD.P")
    ensures FirstPresent(AlertBody(), TfKeys, Str("1m")) == Str("1m")
    ensures FirstPresent(AlertBody(), RsiKeys, Float(0.0)) == Str("58.2")
    ensures FirstPresent(AlertBody(), DistKeys, Float(0.0)) == Float(127.0 / 10.0)
  {
    var d := AlertBody();
    FirstPresentFirst(d, SymbolKeys, Str("BTC1!"), 0);
    FirstPresentFirst(d, TfKeys, Str("1m"), 0);
    FirstPresentFirst(d, RsiKeys, Float(0.0), 0);
    FirstPresentFirst(d, DistKeys, Float(0.0), 0);
  }

  lemma AlertDefaults()
    ensures Missing(AlertBody(), TimestampKeys)
    ensures Missing(AlertBody(), ExchangeKeys)
    ensures Missing(AlertBody(), SourceKeys)
  {
  }

  /** The row mapped from that body: the RSI string is parsed, the missing
      fields take their defaults and the timestamp is the clock reading. */
  lemma AlertRow(lib: Lib, now: string)
    requires lib.parseFloat("58.2") == Some(582.0 / 10.0)
    ensures MapRsi(lib, now, AlertBody())
        == RsiRow(now, "BTCUSD.P", "1m", 582.0 / 10.0, 127.0 / 10.0, "CME", "tradingview",
                  AlertBody(), NaturalKey("BTCUSD.P", "1m", now))
  {
    var d := AlertBody();
    AlertLookups(lib);
    AlertDefaults();
    assert ToFloat(lib, Str("58.2"), 0.0) == 582.0 / 10.0 by {
      TrimUnchanged("58.2");
      TrimBlank("58.2");
    }
    TimestampDefault(lib, now, d);
    TextDefault(lib, d, ExchangeKeys, "CME");
    TextDefault(lib, d, SourceKeys, "tradingview");
  }

  /** The body carries the configured secret, so it is accepted with that
      row, and the status channel is posted to when its URL is set. */
  lemma AlertExample(lib: Lib, now: string, webhook: string)
    requires lib.parseFloat("58.2") == Some(582.0 / 10.0)
    ensures IngestRsi(Config("S3CRET", false, webhook, ""), lib, now, Some(Object(AlertBody())), None, "")
        == Accepted(RsiRow(now, "BTCUSD.P", "1m", 582.0 / 10.0, 127.0 / 10.0, "CME", "tradingview",
                           AlertBody(), NaturalKey("BTCUSD.P", "1m", now)), webhook != "")
  {
    var d := AlertBody();
    assert Recovered(lib, Some(Object(d)), None, "") == d;
    assert AuthOk(Config("S3CRET", false, webhook, ""), d);
    AlertRow(lib, now);
  }

  /** The same body with the wrong secret is refused. */
  lemma WrongSecretExample(lib: Lib, now: string)
    ensures var d := map["auth" := Str("guess"), "symbol" := Str("BTCUSD.P")];
      IngestRsi(Config("S3CRET", false, "", ""), lib, now, Some(Object(d)), None, "").Unauthorized?
  {
    var d := map["auth" := Str("guess"), "symbol" := Str("BTCUSD.P")];
    assert Recovered(lib, Some(Object(d)), None, "") == d;
    assert Get(d, "auth") == Str("guess") && Get(d, "sec") == Null;
  }

  /** An empty alias does not shadow a later one: `symbol: ""` falls through
      to `ticker`. */
  lemma EmptyAliasExample(lib: Lib, now: string)
    ensures MapRsi(lib, now, map["symbol" := Str(""), "ticker" := Str("ETHUSD")]).symbol == "ETHUSD"
  {
    var d := map["symbol" := Str(""), "ticker" := Str("ETHUSD")];
    assert !Qualifies(d, SymbolKeys[0]) && !Qualifies(d, SymbolKeys[1]) && Qualifies(d, SymbolKeys[2]);
    FirstPresentFirst(d, SymbolKeys, Str("BTC1!"), 2);
    assert Text(lib, FirstPresent(d, SymbolKeys, Str("BTC1!"))) == "ETHUSD";
  }

  /** An empty request with no secret configured still yields a row: every
      field takes its default and the payload is `{"raw": ""}`. */
  lemma EmptyRequestExample(lib: Lib, now: string)
    ensures IngestCvd(Config("", false, "", "https://hook"), lib, now, None, None, "")
      == Accepted(CvdRow(now, "BTC1!", "1m", 0.0, 0.0, 0.0, 0.0, "tradingview",
                         map["raw" := Str("")], NaturalKey("BTC1!", "1m", now)), false)
  {
    var d := map["raw" := Str("")];
    assert Recovered(lib, None, None, "") == d by {
      TrimBlank("");
    }
    assert Missing(d, SymbolKeys) && Missing(d, TfKeys) && Missing(d, TimestampKeys);
    assert Missing(d, PriceKeys) && Missing(d, VolumeKeys) && Missing(d, DeltaKeys);
    assert Missing(d, CvdKeys) && Missing(d, SourceKeys);
  }

  /** A delta of -2000 pings the CME channel when its URL is set. */
  lemma LargeDeltaExample(lib: Lib, now: string, hook: string)
    requires hook != ""
    ensures PingsCme(Config("", false, "", hook), MapCvd(lib, now, map["delta" := Int(-2000)]))
  {
    var d := map["delta" := Int(-2000)];
    FirstPresentFirst(d, DeltaKeys, Float(0.0), 0);
  }

  /** A delta of -500 never does. */
  lemma SmallDeltaExample(lib: Lib, now: string, cfg: Config)
    ensures !PingsCme(cfg, MapCvd(lib, now, map["delta" := Int(-500)]))
  {
    var d := map["delta" := Int(-500)];
    FirstPresentFirst(d, DeltaKeys, Float(0.0), 0);
  }
}
