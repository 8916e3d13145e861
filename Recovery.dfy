/**
 Body recovery: `maybe_json`, the tolerant text parser, and `parse_body`, the
 fixed cascade that turns a request into a mapping (JSON body, then the form
 fields `payload` and `message`, then the raw text, then `{"raw": text}`).
 The request itself is reduced to what the cascade looks at: the outcome of
 decoding the body as JSON, the form fields (as the strings `str()` makes of
 them), and the raw body text.
 */
module Recovery {

  import opened Values
  import opened Strings

  /** `t.startswith("{") and t.endswith("}")`. */
  predicate Braced(t: string)
  {
    |t| >= 1 && t[0] == '{' && t[|t| - 1] == '}'
  }

  /** The key of a `k:v` segment: the stripped text before its first ':'
      (the whole segment, stripped, when there is none). */
  function KeyOf(p: string): string
  {
    Trim(p[..IndexOf(p, ':')])
  }

  /** The value of a `k:v` segment: the stripped text after its first ':'. */
  function ValueOf(p: string): string
  {
    var i := IndexOf(p, ':');
    if i < |p| then Trim(p[i + 1..]) else []
  }

  /** The dictionary that assigning `out[k] = v` for each pair in turn builds,
      starting from `{}`. */
  function Build<K, V>(pairs: seq<(K, V)>): map<K, V>
  {
    if pairs == [] then map[]
    else Build(pairs[..|pairs| - 1])[pairs[|pairs| - 1].0 := pairs[|pairs| - 1].1]
  }

  /** The pairs the comma loop of `maybe_json` assigns, one per segment. */
  function Entries(segs: seq<string>): (r: seq<(string, Value)>)
    ensures |r| == |segs|
    ensures forall j :: 0 <= j < |segs| ==> r[j] == (KeyOf(segs[j]), Str(ValueOf(segs[j])))
  {
    seq(|segs|, j requires 0 <= j < |segs| => (KeyOf(segs[j]), Str(ValueOf(segs[j]))))
  }

  /** Every comma segment holds a ':', so no `k,v = p.split(":", 1)` raises. */
  predicate AllPairs(segs: seq<string>)
  {
    forall j :: 0 <= j < |segs| ==> ':' in segs[j]
  }

  /** What `maybe_json(txt)` returns. */
  function ParsedText(lib: Lib, txt: string): Option<Body>
  {
    var t := Trim(txt);
    if t == [] then None
    else if Braced(t) then lib.loadsObject(t)
    else if ':' in t && ',' in t then
      var segs := Split(t, ',');
      if AllPairs(segs) then Some(Build(Entries(segs))) else None
    else None
  }

  /** The keys of the built dictionary are exactly the keys of the pairs. */
  lemma {:induction false} BuildKeys<K, V>(pairs: seq<(K, V)>)
    ensures Build(pairs).Keys == set i | 0 <= i < |pairs| :: pairs[i].0
  {
    if pairs != [] {
      var n := |pairs| - 1;
      var init := pairs[..n];
      BuildKeys(init);
      var all := set i | 0 <= i < |pairs| :: pairs[i].0;
      forall k | k in all ensures k in Build(init).Keys + {pairs[n].0} {
        var i :| 0 <= i < |pairs| && pairs[i].0 == k;
        if i < n { assert init[i] == pairs[i]; }
      }
      forall k | k in Build(init).Keys ensures k in all {
        var i :| 0 <= i < |init| && init[i].0 == k;
        assert init[i] == pairs[i];
      }
    }
  }

  /** Each key of the built dictionary holds the value of the LAST pair with
      that key: a later duplicate overwrites an earlier one. */
  lemma {:induction false} BuildLastWins<K, V>(pairs: seq<(K, V)>, i: int)
    requires 0 <= i < |pairs|
    requires forall i' :: i < i' < |pairs| ==> pairs[i'].0 != pairs[i].0
    ensures pairs[i].0 in Build(pairs) && Build(pairs)[pairs[i].0] == pairs[i].1
  {
    var n := |pairs| - 1;
    if i < n {
      var init := pairs[..n];
      assert init[i] == pairs[i];
      forall i' | i < i' < |init| ensures init[i'].0 != init[i].0 {
        assert init[i'] == pairs[i'];
      }
      BuildLastWins(init, i);
    }
  }

  /** Segment `j` is the last segment whose key is its key. */
  predicate LastWithKey(segs: seq<string>, j: int)
    requires 0 <= j < |segs|
  {
    forall j' :: j < j' < |segs| ==> KeyOf(segs[j']) != KeyOf(segs[j])
  }

  /** `maybe_json` returns `None` in exactly four situations: the text is
      blank; it is brace-delimited and the JSON decoder rejects it; it is not
      brace-delimited and lacks ':' or ','; or some comma segment (an empty
      trailing one included) holds no ':'. */
  lemma ParsedTextNone(lib: Lib, txt: string)
    ensures var t := Trim(txt);
      ParsedText(lib, txt).None? <==>
        || AllSpace(txt)
        || (Braced(t) && lib.loadsObject(t).None?)
        || (!Braced(t) && (':' !in t || ',' !in t))
        || (!Braced(t) && ':' in t && ',' in t &&
            exists j :: 0 <= j < |Split(t, ',')| && ':' !in Split(t, ',')[j])
  {
    var t := Trim(txt);
    TrimBlank(txt);
    if t != [] && !Braced(t) && ':' in t && ',' in t {
      var segs := Split(t, ',');
      if !AllPairs(segs) {
        var j :| 0 <= j < |segs| && ':' !in segs[j];
        assert ParsedText(lib, txt).None?;
        assert 0 <= j < |Split(t, ',')| && ':' !in Split(t, ',')[j];
      } else {
        assert ParsedText(lib, txt).Some?;
      }
    }
  }

  /** For `k:v, k2:v2` text whose every comma segment holds a ':',
      `maybe_json` yields the keys of the segments, each split at its FIRST
      ':' (so values may hold ':') with both halves stripped, and the last
      segment with a given key decides its value. */
  lemma ParsedTextPairs(lib: Lib, txt: string, j: int)
    requires var t := Trim(txt); t != [] && !Braced(t) && ':' in t && ',' in t
    requires AllPairs(Split(Trim(txt), ','))
    requires 0 <= j < |Split(Trim(txt), ',')| && LastWithKey(Split(Trim(txt), ','), j)
    ensures ParsedText(lib, txt).Some?
    ensures var segs := Split(Trim(txt), ',');
      ParsedText(lib, txt).value.Keys == set i | 0 <= i < |segs| :: KeyOf(segs[i])
    ensures var segs := Split(Trim(txt), ',');
      ParsedText(lib, txt).value[KeyOf(segs[j])] == Str(ValueOf(segs[j]))
  {
    var segs := Split(Trim(txt), ',');
    EntriesKeys(segs, j);
  }

  lemma EntriesKeys(segs: seq<string>, j: int)
    requires 0 <= j < |segs| && LastWithKey(segs, j)
    ensures Build(Entries(segs)).Keys == set i | 0 <= i < |segs| :: KeyOf(segs[i])
    ensures Build(Entries(segs))[KeyOf(segs[j])] == Str(ValueOf(segs[j]))
  {
    var pairs := Entries(segs);
    BuildKeys(pairs);
    assert (set i | 0 <= i < |pairs| :: pairs[i].0) == set i | 0 <= i < |segs| :: KeyOf(segs[i]);
    BuildLastWins(pairs, j);
  }

  /** `maybe_json`: strip, then JSON for brace-delimited text, then a
      `k:v, k2:v2` list built up one comma segment at a time. */
  method MaybeJson(lib: Lib, txt: string) returns (r: Option<Body>)
    ensures r == ParsedText(lib, txt)
  {
    var t := Trim(txt);
    if t == [] {
      return None;
    }
    if Braced(t) {
      return lib.loadsObject(t);
    }
    if ':' in t && ',' in t {
      var segs := Split(t, ',');
      var out: Body := map[];
      for i := 0 to |segs|
        invariant AllPairs(segs[..i])
        invariant out == Build(Entries(segs[..i]))
      {
        var kv := SplitFirst(segs[i], ':');
        if kv.None? {
          assert !AllPairs(segs) by { assert ':' !in segs[i]; }
          return None;
        }
        EntriesStep(segs, i);
        out := out[Trim(kv.value.0) := Str(Trim(kv.value.1))];
      }
      assert segs[..|segs|] == segs;
      return Some(out);
    }
    return None;
  }

  /** One more segment of the comma loop: it assigns that segment's pair. */
  lemma EntriesStep(segs: seq<string>, i: int)
    requires 0 <= i < |segs| && AllPairs(segs[..i]) && ':' in segs[i]
    ensures AllPairs(segs[..i + 1])
    ensures var kv := SplitFirst(segs[i], ':').value;
      Build(Entries(segs[..i + 1])) == Build(Entries(segs[..i]))[Trim(kv.0) := Str(Trim(kv.1))]
  {
    var pre := segs[..i + 1];
    assert pre[..i] == segs[..i];
    forall j | 0 <= j < |pre| ensures ':' in pre[j] {
      if j < i { assert pre[j] == segs[..i][j]; }
    }
    var es := Entries(pre);
    assert es[..i] == Entries(segs[..i]);
    assert Build(es) == Build(es[..i])[es[i].0 := es[i].1];
    assert es[i] == (KeyOf(segs[i]), Str(ValueOf(segs[i])));
    SegmentHalves(segs[i]);
  }

  /** A segment's key and value are the stripped halves of its split at the
      first ':'. */
  lemma SegmentHalves(p: string)
    requires ':' in p
    ensures var kv := SplitFirst(p, ':').value; KeyOf(p) == Trim(kv.0) && ValueOf(p) == Trim(kv.1)
  {
  }

  /** `maybe_json` as a function value, the parser the form stage applies. */
  function TextParser(lib: Lib): string -> Option<Body>
  {
    t => ParsedText(lib, t)
  }

  /** The form fields `parse_body` consults, in order. */
  const FormKeys: seq<string> := ["payload", "message"]

  /** The first of `keys` that is a form field whose text `maybe_json`
      accepts, parsed; `None` when there is none. */
  function FromForm(parse: string -> Option<Body>, form: map<string, string>, keys: seq<string>): Option<Body>
  {
    if keys == [] then None
    else if Accepts(parse, form, keys[0]) then parse(form[keys[0]])
    else FromForm(parse, form, keys[1..])
  }

  /** The form field `k` is present and `parse` accepts its text. */
  predicate Accepts(parse: string -> Option<Body>, form: map<string, string>, k: string)
  {
    k in form && parse(form[k]).Some?
  }

  /** The first accepted form field decides, whatever later fields hold. */
  lemma {:induction false} FromFormFirst(parse: string -> Option<Body>, form: map<string, string>, keys: seq<string>, i: int)
    requires 0 <= i < |keys| && Accepts(parse, form, keys[i])
    requires forall j :: 0 <= j < i ==> !Accepts(parse, form, keys[j])
    ensures FromForm(parse, form, keys) == parse(form[keys[i]])
  {
    if i > 0 {
      assert !Accepts(parse, form, keys[0]);
      forall j | 0 <= j < i - 1 ensures !Accepts(parse, form, keys[1..][j]) {
        assert keys[1..][j] == keys[j + 1];
      }
      FromFormFirst(parse, form, keys[1..], i - 1);
    }
  }

  /** With no accepted form field the form stage yields nothing. */
  lemma {:induction false} FromFormNone(parse: string -> Option<Body>, form: map<string, string>, keys: seq<string>)
    requires forall j :: 0 <= j < |keys| ==> !Accepts(parse, form, keys[j])
    ensures FromForm(parse, form, keys).None?
  {
    if keys != [] {
      assert !Accepts(parse, form, keys[0]);
      forall j | 0 <= j < |keys| - 1 ensures !Accepts(parse, form, keys[1..][j]) {
        assert keys[1..][j] == keys[j + 1];
      }
      FromFormNone(parse, form, keys[1..]);
    }
  }

  /** Everything after the JSON attempt: the form stage (skipped when reading
      the form raised, `form == None`), then `maybe_json` of the raw text,
      then `{"raw": raw.strip()}`. */
  function Fallback(lib: Lib, form: Option<map<string, string>>, raw: string): (r: Body)
    ensures form.Some? && FromForm(TextParser(lib), form.value, FormKeys).Some? ==> r == FromForm(TextParser(lib), form.value, FormKeys).value
    ensures (form.None? || FromForm(TextParser(lib), form.value, FormKeys).None?) && ParsedText(lib, raw).Some? ==> r == ParsedText(lib, raw).value
    ensures (form.None? || FromForm(TextParser(lib), form.value, FormKeys).None?) && ParsedText(lib, raw).None? ==> r == map["raw" := Str(Trim(raw))]
  {
    var f := if form.Some? then FromForm(TextParser(lib), form.value, FormKeys) else None;
    if f.Some? then f.value
    else match ParsedText(lib, raw)
      case Some(m) => m
      case None => map["raw" := Str(Trim(raw))]
  }

  /** What `parse_body` returns, with the JSON body taken only when it decodes
      to an object (the corrected cascade, see `RecoveredAsWritten`). */
  function Recovered(lib: Lib, json: Option<Json>, form: Option<map<string, string>>, raw: string): (d: Body)
    ensures json.Some? && json.value.Object? ==> d == json.value.fields
    ensures json.None? || json.value.Scalar? ==> d == Fallback(lib, form, raw)
  {
    if json.Some? && json.value.Object? then json.value.fields else Fallback(lib, form, raw)
  }

  /** What `parse_body` returns as written: whatever `req.json()` decodes is
      returned, an array, number, string or `null` included. */
  function RecoveredAsWritten(lib: Lib, json: Option<Json>, form: Option<map<string, string>>, raw: string): (d: Json)
    ensures json.Some? ==> d == json.value
    ensures json.None? ==> d == Object(Fallback(lib, form, raw))
  {
    if json.Some? then json.value else Object(Fallback(lib, form, raw))
  }

  /** The cascade as written and the corrected one agree on every request
      whose body is not JSON or is a JSON object. */
  lemma RecoveredAgrees(lib: Lib, json: Option<Json>, form: Option<map<string, string>>, raw: string)
    requires json.None? || json.value.Object?
    ensures RecoveredAsWritten(lib, json, form, raw) == Object(Recovered(lib, json, form, raw))
  {
  }

  /** A body that is the JSON number 58.2 (an alert whose message is just a
      number) makes `parse_body` as written return a non-mapping, on which
      `auth_ok` and `pick` raise; the corrected cascade falls back to the raw
      text instead. */
  lemma RecoveredAsWrittenNotMapping(lib: Lib)
    ensures !RecoveredAsWritten(lib, Some(Scalar(Float(582 as real / 10 as real))), None, "58.2").Object?
    ensures Recovered(lib, Some(Scalar(Float(582 as real / 10 as real))), None, "58.2") == map["raw" := Str("58.2")]
  {
    TrimUnchanged("58.2");
    assert ':' !in "58.2";
  }

  /** `parse_body`: the JSON body if it is an object, else the first form field
      among `payload`, `message` that `maybe_json` accepts, else `maybe_json`
      of the raw text, else `{"raw": raw.strip()}`. */
  method ParseBody(lib: Lib, json: Option<Json>, form: Option<map<string, string>>, raw: string) returns (d: Body)
    ensures d == Recovered(lib, json, form, raw)
  {
    if json.Some? && json.value.Object? {
      return json.value.fields;
    }
    if form.Some? {
      var fields := form.value;
      var keys := FormKeys;
      for i := 0 to |keys|
        invariant FromForm(TextParser(lib), fields, keys) == FromForm(TextParser(lib), fields, keys[i..])
      {
        assert keys[i..][1..] == keys[i + 1..];
        if keys[i] in fields {
          var mj := MaybeJson(lib, fields[keys[i]]);
          if mj.Some? {
            return mj.value;
          }
        }
      }
    }
    var mj := MaybeJson(lib, raw);
    if mj.Some? {
      return mj.value;
    }
    return map["raw" := Str(Trim(raw))];
  }
}
