/**
 The field helpers of the normaliser: the shared-secret check `auth_ok`, the
 first-match alias lookup `pick`, the total numeric coercion `fnum` and the
 timestamp normaliser `utc_iso`. Configuration read from the environment at
 start-up is a `Config` value; the clock reading is the parameter `now`.
 */
module Fields {

  import opened Values
  import opened Strings

  /** The configuration the handlers read: `ALPHAOPS_SECRET`, the parsed
      `RELAXED_AUTH` flag and the two chat webhook URLs. */
  datatype Config = Config(secret: string, relaxed: bool, statusWebhook: string, cmeWebhook: string)

  /** `d.get(k)`: the value under `k`, or `None` when `k` is absent. */
  function Get(d: Body, k: string): (r: Value)
    ensures k in d ==> r == d[k]
    ensures k !in d ==> r == Null
  {
    if k in d then d[k] else Null
  }

  /** `auth_ok(d)`: relaxed mode and an empty secret let every body through;
      otherwise the body must carry the secret, as a string equal to it,
      under `auth` or under `sec`. */
  function AuthOk(cfg: Config, d: Body): (ok: bool)
    ensures cfg.relaxed || cfg.secret == [] ==> ok
    ensures !cfg.relaxed && cfg.secret != [] ==>
              (ok <==> ("auth" in d && d["auth"] == Str(cfg.secret)) || ("sec" in d && d["sec"] == Str(cfg.secret)))
  {
    if cfg.relaxed then true
    else if cfg.secret == [] then true
    else Get(d, "auth") == Str(cfg.secret) || Get(d, "sec") == Str(cfg.secret)
  }

  /** Only the `auth` and `sec` fields matter to `auth_ok`. */
  lemma AuthOkIgnoresOtherFields(cfg: Config, d: Body, k: string, v: Value)
    requires k != "auth" && k != "sec"
    ensures AuthOk(cfg, d[k := v]) == AuthOk(cfg, d)
  {
  }

  /** `v not in (None, "")`: the values `pick` accepts. */
  predicate Usable(v: Value)
  {
    v != Null && v != Str("")
  }

  /** The alias `k` is present in `d` with a value `pick` accepts. */
  predicate Qualifies(d: Body, k: string)
  {
    k in d && Usable(d[k])
  }

  /** What `pick(d, keys, default)` returns: the value of the first alias in
      `keys` that qualifies, or `default`. */
  function FirstPresent(d: Body, keys: seq<string>, default: Value): (r: Value)
    ensures r == default || exists i :: 0 <= i < |keys| && Qualifies(d, keys[i]) && r == d[keys[i]]
  {
    if keys == [] then default
    else if Qualifies(d, keys[0]) then d[keys[0]]
    else
      var r := FirstPresent(d, keys[1..], default);
      assert forall i :: 1 <= i < |keys| ==> keys[1..][i - 1] == keys[i];
      r
  }

  /** The first qualifying alias decides, whatever later aliases hold. */
  lemma {:induction false} FirstPresentFirst(d: Body, keys: seq<string>, default: Value, i: int)
    requires 0 <= i < |keys| && Qualifies(d, keys[i])
    requires forall j :: 0 <= j < i ==> !Qualifies(d, keys[j])
    ensures FirstPresent(d, keys, default) == d[keys[i]]
  {
    if i > 0 {
      assert !Qualifies(d, keys[0]);
      forall j | 0 <= j < i - 1 ensures !Qualifies(d, keys[1..][j]) {
        assert keys[1..][j] == keys[j + 1];
      }
      FirstPresentFirst(d, keys[1..], default, i - 1);
    }
  }

  /** When no alias qualifies (absent, `None` or `""`), the default is
      returned. */
  lemma {:induction false} FirstPresentNone(d: Body, keys: seq<string>, default: Value)
    requires forall j :: 0 <= j < |keys| ==> !Qualifies(d, keys[j])
    ensures FirstPresent(d, keys, default) == default
  {
    if keys != [] {
      assert !Qualifies(d, keys[0]);
      forall j | 0 <= j < |keys| - 1 ensures !Qualifies(d, keys[1..][j]) {
        assert keys[1..][j] == keys[j + 1];
      }
      FirstPresentNone(d, keys[1..], default);
    }
  }

  /** Looking up `ks1 + ks2` is looking up `ks1` with the lookup of `ks2` as
      its default: earlier aliases shadow later ones. */
  lemma {:induction false} FirstPresentAppend(d: Body, ks1: seq<string>, ks2: seq<string>, default: Value)
    ensures FirstPresent(d, ks1 + ks2, default) == FirstPresent(d, ks1, FirstPresent(d, ks2, default))
  {
    if ks1 != [] {
      assert (ks1 + ks2)[0] == ks1[0];
      assert (ks1 + ks2)[1..] == ks1[1..] + ks2;
      FirstPresentAppend(d, ks1[1..], ks2, default);
    } else {
      assert ks1 + ks2 == ks2;
    }
  }

  /** `pick`: scan the aliases in order and return the first usable value. */
  method Pick(d: Body, keys: seq<string>, default: Value) returns (r: Value)
    ensures r == FirstPresent(d, keys, default)
  {
    for i := 0 to |keys|
      invariant FirstPresent(d, keys, default) == FirstPresent(d, keys[i..], default)
    {
      assert keys[i..][1..] == keys[i + 1..];
      var k := keys[i];
      if k in d && d[k] != Null && d[k] != Str("") {
        return d[k];
      }
    }
    return default;
  }

  /** `fnum(x, default)`: never fails. `None` gives the default; an int, a bool
      or a float gives that number; a list or dict gives the default; a string
      is stripped, and gives the default when blank or unparsable and the
      parsed number otherwise. */
  function ToFloat(lib: Lib, x: Value, default: real): (r: real)
    ensures x.Null? ==> r == default
    ensures x.Bool? ==> r == if x.b then 1.0 else 0.0
    ensures x.Int? ==> r == x.i as real
    ensures x.Float? ==> r == x.f
    ensures x.Str? && AllSpace(x.s) ==> r == default
    ensures x.Str? && lib.parseFloat(Trim(x.s)).None? ==> r == default
    ensures x.Str? && !AllSpace(x.s) && lib.parseFloat(Trim(x.s)).Some? ==> r == lib.parseFloat(Trim(x.s)).value
    ensures x.Nested? ==> r == default
  {
    match x
    case Null => default
    case Bool(b) => if b then 1.0 else 0.0
    case Int(i) => i as real
    case Float(f) => f
    // `str()` of a list or dict starts with '[' or '{', which `float` never accepts.
    case Nested(_) => default
    case Str(_) =>
      var s := Trim(Text(lib, x));
      TrimBlank(Text(lib, x));
      if s == [] then default
      else match lib.parseFloat(s)
        case Some(f) => f
        case None => default
  }

  /** `utc_iso(ts)`: a non-empty string whose `Z`s are spelled `+00:00` and
      which the ISO parser accepts gives that instant in UTC; every other
      input (nothing, `""`, a number, anything the parser rejects) gives the
      current time. */
  function UtcIso(lib: Lib, now: string, ts: Value): (r: string)
    ensures !ts.Str? || ts.s == [] ==> r == now
    ensures ts.Str? && ts.s != [] && lib.isoToUtc(ReplaceAll(ts.s, 'Z', "+00:00")).Some? ==>
              r == lib.isoToUtc(ReplaceAll(ts.s, 'Z', "+00:00")).value
    ensures ts.Str? && ts.s != [] && lib.isoToUtc(ReplaceAll(ts.s, 'Z', "+00:00")).None? ==> r == now
    ensures r == now || exists t :: lib.isoToUtc(t) == Some(r) && 'Z' !in t
  {
    if ts.Str? && ts.s != [] then
      var t := ReplaceAll(ts.s, 'Z', "+00:00");
      match lib.isoToUtc(t)
      case Some(iso) => iso
      case None => now
    else now
  }
}
