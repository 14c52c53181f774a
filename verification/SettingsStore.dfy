/** Runtime settings: the write path validates a whole settings object, the read path parses stored rows on every
    request and must never fail. */
module SettingsStore {
  import opened Basics

  datatype Kind = IntKind | FloatKind | TextKind | BoolKind
  datatype Value = Int(i: int) | Float(r: real) | Text(s: string) | Flag(b: bool)

  datatype Spec = Spec(field: string, kind: Kind, minimum: real, maximum: real)

  type Settings = map<string, Value>

  const CHUNK_SIZE := "chunk_size"
  const CHUNK_OVERLAP := "chunk_overlap"
  const RRF_K := "rrf_k"
  const CANDIDATE_LIMIT := "retrieval_candidate_limit"
  const WEAK_EVIDENCE := "weak_evidence_rrf_score"

  /** Number parsing and lower-casing, and the validators that read no runtime-safe pair. */
  datatype Env = Env(toInt: string -> Option<int>, toFloat: string -> Option<real>, lower: string -> string,
                     otherChecks: Settings -> bool)

  // ---- one value ------------------------------------------------------------------------

  function FlagOf(word: string): Option<bool> {
    if word in ["true", "1", "on", "yes"] then Some(true)
    else if word in ["false", "0", "off", "no"] then Some(false)
    else None
  }

  /** Four words each, and no word means both. */
  lemma FlagMeans(word: string)
    ensures FlagOf(word) == Some(true) <==> word == "true" || word == "1" || word == "on" || word == "yes"
    ensures FlagOf(word) == Some(false) <==> word == "false" || word == "0" || word == "off" || word == "no"
  {
    if word == "on" {
      assert |word| == 2 && word[1] == 'n';
      assert "no"[1] == 'o';
    }
  }

  function Parse(env: Env, spec: Spec, raw: string): Option<Value> {
    match spec.kind
    case TextKind => Some(Text(Strip(raw)))
    case BoolKind =>
      (match FlagOf(env.lower(Strip(raw)))
       case Some(b) => Some(Flag(b))
       case None => None)
    case IntKind =>
      var n := env.toInt(raw);
      if n.Some? && spec.minimum <= n.value as real <= spec.maximum then Some(Int(n.value)) else None
    case FloatKind =>
      var x := env.toFloat(raw);
      if x.Some? && spec.minimum <= x.value <= spec.maximum then Some(Float(x.value)) else None
  }

  /** What a row's text means: a text itself, without the white space around it; a flag by its word, in any case; a
      number if it is one and lies within the bounds. Anything else is unusable. */
  lemma ParseMeans(env: Env, spec: Spec, raw: string, i: nat, middle: string)
    requires StrippedAt(raw, middle, i)
    ensures var v, word := Parse(env, spec, raw), env.lower(middle);
            match spec.kind
            case TextKind => v == Some(Text(middle))
            case BoolKind =>
              && (v == Some(Flag(true)) <==> word == "true" || word == "1" || word == "on" || word == "yes")
              && (v == Some(Flag(false)) <==> word == "false" || word == "0" || word == "off" || word == "no")
              && (v.None? || v.value.Flag?)
            case IntKind =>
              && (forall n :: v == Some(Int(n)) <==>
                    env.toInt(raw) == Some(n) && spec.minimum <= n as real <= spec.maximum)
              && (v.None? || v.value.Int?)
            case FloatKind =>
              && (forall x :: v == Some(Float(x)) <==> env.toFloat(raw) == Some(x) && spec.minimum <= x <= spec.maximum)
              && (v.None? || v.value.Float?)
  {
    StripMeans(raw, middle, i);
    hide StrippedAt, Strip, FlagOf, Parse;
    match spec.kind
    case TextKind => ParseNumbers(env, spec, raw);
    case BoolKind =>
      ParseFlag(env, spec, raw);
      FlagMeans(env.lower(middle));
    case _ => ParseNumbers(env, spec, raw);
  }

  lemma ParseFlag(env: Env, spec: Spec, raw: string)
    requires spec.kind == BoolKind
    ensures var v, flag := Parse(env, spec, raw), FlagOf(env.lower(Strip(raw)));
            (v.None? <==> flag.None?) && (v.Some? ==> v == Some(Flag(flag.value)))
  {
    hide Strip, FlagOf;
  }

  lemma ParseNumbers(env: Env, spec: Spec, raw: string)
    ensures var v := Parse(env, spec, raw);
            match spec.kind
            case TextKind => v == Some(Text(Strip(raw)))
            case BoolKind => true
            case IntKind =>
              && (forall n :: v == Some(Int(n)) <==>
                    env.toInt(raw) == Some(n) && spec.minimum <= n as real <= spec.maximum)
              && (v.None? || v.value.Int?)
            case FloatKind =>
              && (forall x :: v == Some(Float(x)) <==> env.toFloat(raw) == Some(x) && spec.minimum <= x <= spec.maximum)
              && (v.None? || v.value.Float?)
  {
    hide Strip, FlagOf;
  }

  /** The value has the spec's kind and lies within its bounds. */
  predicate InRange(spec: Spec, v: Value) {
    match spec.kind
    case TextKind => v.Text?
    case BoolKind => v.Flag?
    case IntKind => v.Int? && spec.minimum <= v.i as real <= spec.maximum
    case FloatKind => v.Float? && spec.minimum <= v.r <= spec.maximum
  }

  // ---- the table of runtime-safe keys ------------------------------------------------------

  type Table = map<string, Spec>

  /** Each key has a field of its own, and the chunking and fusion fields are whole numbers. */
  ghost predicate TableOk(table: Table) {
    && (forall a, b :: a in table && b in table && table[a].field == table[b].field ==> a == b)
    && (forall k :: k in table && table[k].field in {CHUNK_SIZE, CHUNK_OVERLAP, RRF_K, CANDIDATE_LIMIT} ==>
        table[k].kind == IntKind)
    && (forall k :: k in table && table[k].field in {RRF_K, CANDIDATE_LIMIT} ==> table[k].minimum >= 0.0)
    && (forall k :: k in table && table[k].field == CANDIDATE_LIMIT ==> table[k].minimum >= 1.0)
    && (forall k :: k in table ==> table[k].field != WEAK_EVIDENCE)
  }

  /** The fields the cross-checks read are there and have their types. */
  ghost predicate Shaped(s: Settings) {
    && CHUNK_SIZE in s && s[CHUNK_SIZE].Int? && CHUNK_OVERLAP in s && s[CHUNK_OVERLAP].Int?
    && RRF_K in s && s[RRF_K].Int? && CANDIDATE_LIMIT in s && s[CANDIDATE_LIMIT].Int?
    && WEAK_EVIDENCE in s && s[WEAK_EVIDENCE].Float?
  }

  predicate PairOk(s: Settings)
    requires Shaped(s)
  {
    0 <= s[CHUNK_OVERLAP].i < s[CHUNK_SIZE].i
  }

  /** The weak-evidence threshold stays below what two arms agreeing at the bottom of the candidate window score. */
  predicate Corroborated(s: Settings)
    requires Shaped(s)
  {
    0.0 <= s[WEAK_EVIDENCE].r && BelowFloor(s[WEAK_EVIDENCE].r, s[RRF_K].i, s[CANDIDATE_LIMIT].i)
  }

  /** Below what both arms score at the top and at the bottom of the candidate window. */
  predicate BelowFloor(threshold: real, k: int, limit: int) {
    k >= 0 && limit >= 1 && threshold < 2.0 / (k + 1) as real && threshold < 2.0 / (k + limit) as real
  }

  /** The model validator. */
  predicate Finalises(env: Env, s: Settings)
    requires Shaped(s)
  {
    PairOk(s) && Corroborated(s) && env.otherChecks(s)
  }

  // ---- collecting parsed overrides ---------------------------------------------------------------

  /** The fields that parse, each with its value. */
  ghost predicate Collected(env: Env, table: Table, rows: map<string, string>, update: Settings) {
    && (forall k :: k in rows && k in table && Parse(env, table[k], rows[k]).Some? ==>
          table[k].field in update && update[table[k].field] == Parse(env, table[k], rows[k]).value)
    && (forall f :: f in update ==>
          exists k :: k in rows && k in table && table[k].field == f &&
            Parse(env, table[k], rows[k]) == Some(update[f]))
  }

  lemma CollectedIsUnique(env: Env, table: Table, rows: map<string, string>, a: Settings, b: Settings)
    requires TableOk(table) && Collected(env, table, rows, a) && Collected(env, table, rows, b)
    ensures a == b
  {
    hide Parse;
    forall f | f in a ensures f in b && b[f] == a[f] {
      var k :| k in rows && k in table && table[k].field == f && Parse(env, table[k], rows[k]) == Some(a[f]);
    }
    forall f | f in b ensures f in a {
      var k :| k in rows && k in table && table[k].field == f && Parse(env, table[k], rows[k]) == Some(b[f]);
    }
  }

  lemma CollectOne(env: Env, table: Table, rows: map<string, string>, k: string, update: Settings)
    requires TableOk(table) && k in table && k !in rows && Collected(env, table, rows, update)
    ensures forall raw :: Collected(env, table, rows[k := raw],
              match Parse(env, table[k], raw) case Some(v) => update[table[k].field := v] case None => update)
  {
    hide Parse;
    forall raw ensures Collected(env, table, rows[k := raw],
              match Parse(env, table[k], raw) case Some(v) => update[table[k].field := v] case None => update) {
      var more := match Parse(env, table[k], raw) case Some(v) => update[table[k].field := v] case None => update;
      forall f | f in more
        ensures exists j :: j in rows[k := raw] && j in table && table[j].field == f &&
                  Parse(env, table[j], rows[k := raw][j]) == Some(more[f])
      {
        if f in update && (Parse(env, table[k], raw).None? || f != table[k].field) {
          var j :| j in rows && j in table && table[j].field == f && Parse(env, table[j], rows[j]) == Some(update[f]);
          assert rows[k := raw][j] == rows[j];
        } else {
          assert rows[k := raw][k] == raw;
        }
      }
    }
  }

  /** The read path's answer, as a relation to what parsed: all of it, or all but the chunking pair when that would be
      no pair. */
  ghost predicate ReadResult(base: Settings, update: Settings, result: Settings)
    requires Shaped(base + update)
  {
    result == base + if PairOk(base + update) then update else update - {CHUNK_SIZE, CHUNK_OVERLAP}
  }

  lemma UpdateKeepsShape(env: Env, table: Table, base: Settings, rows: map<string, string>, update: Settings)
    requires TableOk(table) && Shaped(base) && Collected(env, table, rows, update)
    ensures Shaped(base + update)
    ensures AllInRange(table, update)
    ensures RRF_K in update ==> update[RRF_K].i >= 0
    ensures CANDIDATE_LIMIT in update ==> update[CANDIDATE_LIMIT].i >= 1
    ensures WEAK_EVIDENCE !in update
  {
    forall f | f in update ensures exists k :: k in table && table[k].field == f && InRange(table[k], update[f]) {
      var k :| k in rows && k in table && table[k].field == f && Parse(env, table[k], rows[k]) == Some(update[f]);
      ParsedIsInRange(env, table[k], rows[k]);
    }
  }

  lemma ParsedIsInRange(env: Env, spec: Spec, raw: string)
    ensures Parse(env, spec, raw).Some? ==> InRange(spec, Parse(env, spec, raw).value)
  {
    hide FlagOf, Strip;
  }

  // ---- the two paths ---------------------------------------------------------------------------

  /** Rows of keys that are no longer runtime-safe are dropped. */
  function LoadOverrides(table: Table, rows: map<string, string>): (kept: map<string, string>)
    ensures kept.Keys == rows.Keys * table.Keys && forall k :: k in kept ==> kept[k] == rows[k]
  {
    map k | k in rows && k in table :: rows[k]
  }

  /** The read path: whatever the rows hold, it answers. */
  method ApplyOverrides(env: Env, table: Table, base: Settings, rows: map<string, string>)
    returns (result: Settings)
    requires TableOk(table) && Shaped(base) && rows.Keys <= table.Keys
    ensures exists update ::
              Collected(env, table, rows, update) && Shaped(base + update) && ReadResult(base, update, result)
  {
    hide Collected, Parse, TableOk;
    var parsed: Settings := map[];
    var todo := rows.Keys;
    ghost var read: map<string, string> := map[];
    NothingCollected(env, table);
    while todo != {}
      invariant todo <= rows.Keys && read == Only(rows, rows.Keys - todo)
      invariant Collected(env, table, read, parsed)
      decreases todo
    {
      var k :| k in todo;
      CollectOne(env, table, read, k, parsed);
      var value := Parse(env, table[k], rows[k]);
      if value.Some? {
        parsed := parsed[table[k].field := value.value];
      }
      read := read[k := rows[k]];
      todo := todo - {k};
    }
    assert read == rows;
    ghost var update := parsed;
    UpdateKeepsShape(env, table, base, rows, parsed);
    var size := if CHUNK_SIZE in parsed then parsed[CHUNK_SIZE] else base[CHUNK_SIZE];
    var overlap := if CHUNK_OVERLAP in parsed then parsed[CHUNK_OVERLAP] else base[CHUNK_OVERLAP];
    if !(0 <= overlap.i < size.i) {
      parsed := parsed - {CHUNK_SIZE, CHUNK_OVERLAP};
    }
    result := base + parsed;
    assert Collected(env, table, rows, update) && ReadResult(base, update, result);
  }

  ghost function Only(rows: map<string, string>, keys: set<string>): map<string, string> {
    map k | k in rows && k in keys :: rows[k]
  }

  lemma NothingCollected(env: Env, table: Table)
    ensures Collected(env, table, map[], map[])
  {}

  /** The write path: every key known, every value parsed, and the whole object accepted by the validators. */
  method ValidatedSettings(env: Env, table: Table, base: Settings, rows: map<string, string>)
    returns (result: Option<Settings>)
    requires TableOk(table) && Shaped(base)
    ensures result.Some? ==>
              && rows.Keys <= table.Keys && (forall k :: k in rows ==> Parse(env, table[k], rows[k]).Some?)
              && exists update ::
                   && Collected(env, table, rows, update) && Shaped(base + update) && Finalises(env, base + update)
                   && result.value == base + update
    ensures result.None? ==>
              || !(rows.Keys <= table.Keys)
              || (exists k :: k in rows && k in table && Parse(env, table[k], rows[k]).None?)
              || exists update :: Collected(env, table, rows, update) && Shaped(base + update) &&
                   !Finalises(env, base + update)
  {
    hide Collected, Parse, TableOk, Finalises;
    var parsed: Settings := map[];
    var todo := rows.Keys;
    ghost var read: map<string, string> := map[];
    NothingCollected(env, table);
    while todo != {}
      invariant todo <= rows.Keys && read == Only(rows, rows.Keys - todo)
      invariant Collected(env, table, read, parsed)
      invariant forall k :: k in rows && k !in todo ==> k in table && Parse(env, table[k], rows[k]).Some?
      decreases todo
    {
      var k :| k in todo;
      if k !in table {
        return None;
      }
      CollectOne(env, table, read, k, parsed);
      var value := Parse(env, table[k], rows[k]);
      if value.None? {
        return None;
      }
      parsed := parsed[table[k].field := value.value];
      read := read[k := rows[k]];
      todo := todo - {k};
    }
    assert read == rows;
    UpdateKeepsShape(env, table, base, rows, parsed);
    assert Collected(env, table, rows, parsed);
    if Finalises(env, base + parsed) {
      return Some(base + parsed);
    }
    return None;
  }

  // ---- what they promise -----------------------------------------------------------------------------

  /** Any stored rows over a valid base: overridden fields hold in-range values, the chunking pair stays a pair, and
      every other field keeps the base's value. */
  lemma ReadPathIsSafe(env: Env, table: Table, base: Settings, rows: map<string, string>, update: Settings,
                       result: Settings)
    requires TableOk(table) && Shaped(base) && PairOk(base) && Collected(env, table, rows, update)
    requires Shaped(base + update) && ReadResult(base, update, result)
    ensures Shaped(result) && PairOk(result)
    ensures result.Keys == base.Keys +
              (if PairOk(base + update) then update.Keys else update.Keys - {CHUNK_SIZE, CHUNK_OVERLAP})
    ensures forall f :: f in result ==>
              || (f in base && result[f] == base[f])
              || exists k :: k in rows && k in table && table[k].field == f && InRange(table[k], result[f])
                             && Parse(env, table[k], rows[k]) == Some(result[f])
    ensures forall f :: f in base && (forall k :: k in rows && k in table ==> table[k].field != f) ==>
              result[f] == base[f]
  {
    hide Parse, InRange, TableOk;
    forall f | f in result && !(f in base && result[f] == base[f])
      ensures exists k :: k in rows && k in table && table[k].field == f && InRange(table[k], result[f])
                          && Parse(env, table[k], rows[k]) == Some(result[f])
    {
      var k :| k in rows && k in table && table[k].field == f && Parse(env, table[k], rows[k]) == Some(update[f]);
      ParsedIsInRange(env, table[k], rows[k]);
    }
  }

  /** Every override set the write path accepts is applied in full by the read path, with equal values everywhere. */
  lemma AcceptedIsApplied(env: Env, table: Table, base: Settings, rows: map<string, string>,
                          written: Settings, read: Settings, result: Settings)
    requires TableOk(table) && Shaped(base)
    requires Collected(env, table, rows, written) && Shaped(base + written) && Finalises(env, base + written)
    requires Collected(env, table, rows, read) && Shaped(base + read) && ReadResult(base, read, result)
    ensures result == base + written
  {
    CollectedIsUnique(env, table, rows, written, read);
  }

  /** The bounds in the table imply the validators that read one field: a value in range never upsets them. */
  ghost predicate RangesSuffice(env: Env, table: Table) {
    forall s, k, v :: k in table && InRange(table[k], v) && env.otherChecks(s) ==>
      env.otherChecks(s[table[k].field := v])
  }

  lemma OneInRange(env: Env, table: Table, s: Settings, k: string, v: Value)
    requires RangesSuffice(env, table) && k in table && InRange(table[k], v) && env.otherChecks(s)
    ensures env.otherChecks(s[table[k].field := v])
  {
    hide InRange;
  }

  /** Each field is one of the table's, with a value in range. */
  ghost predicate AllInRange(table: Table, update: Settings) {
    forall f :: f in update ==> exists k :: k in table && table[k].field == f && InRange(table[k], update[f])
  }

  lemma TakeField(table: Table, base: Settings, update: Settings) returns (k: string, rest: Settings)
    requires AllInRange(table, update) && update != map[]
    ensures k in table && table[k].field in update && InRange(table[k], update[table[k].field])
    ensures rest.Keys < update.Keys && AllInRange(table, rest)
    ensures base + update == (base + rest)[table[k].field := update[table[k].field]]
  {
    hide InRange;
    var f :| f in update;
    k :| k in table && table[k].field == f && InRange(table[k], update[f]);
    rest := update - {f};
    assert f in update.Keys - rest.Keys;
  }

  lemma {:induction false} InRangeKeepsChecks(env: Env, table: Table, base: Settings, update: Settings)
    requires RangesSuffice(env, table) && env.otherChecks(base) && AllInRange(table, update)
    ensures env.otherChecks(base + update)
    decreases update.Keys
  {
    hide RangesSuffice, InRange, AllInRange;
    if update == map[] {
      assert base + update == base;
    } else {
      var k, rest := TakeField(table, base, update);
      InRangeKeepsChecks(env, table, base, rest);
      OneInRange(env, table, base + rest, k, update[table[k].field]);
    }
  }

  /** The chunking pair is not the only cross-check the rows can upset: over a base the validators accept, what the read
      path returns would be accepted again if and only if the base's weak-evidence threshold clears the fusion constant
      and the candidate limit that the rows (or, where there is no usable row, the base) give. */
  lemma ReadResultIsValidIff(env: Env, table: Table, base: Settings, rows: map<string, string>, update: Settings,
                             result: Settings)
    requires TableOk(table) && RangesSuffice(env, table) && Shaped(base) && Finalises(env, base)
    requires Collected(env, table, rows, update) && Shaped(base + update) && ReadResult(base, update, result)
    ensures Shaped(result)
    ensures var k := if RRF_K in update then update[RRF_K].i else base[RRF_K].i;
            var limit := if CANDIDATE_LIMIT in update then update[CANDIDATE_LIMIT].i else base[CANDIDATE_LIMIT].i;
            Finalises(env, result) <==>
              k >= 0 && limit >= 1 && base[WEAK_EVIDENCE].r < 2.0 / (k + 1) as real &&
                base[WEAK_EVIDENCE].r < 2.0 / (k + limit) as real
  {
    hide Collected, TableOk, InRange, RangesSuffice, BelowFloor, Corroborated;
    FloorsOf(base);
    FloorsOf(result);
    UpdateKeepsShape(env, table, base, rows, update);
    InRangeKeepsChecks(env, table, base, update);
    InRangeKeepsChecks(env, table, base, update - {CHUNK_SIZE, CHUNK_OVERLAP});
    assert PairOk(result);
  }

  lemma FloorsOf(s: Settings)
    requires Shaped(s)
    ensures var threshold, k, limit := s[WEAK_EVIDENCE].r, s[RRF_K].i, s[CANDIDATE_LIMIT].i;
            Corroborated(s) <==>
              && 0.0 <= threshold && k >= 0 && limit >= 1
              && threshold < 2.0 / (k + 1) as real && threshold < 2.0 / (k + limit) as real
  {}

  /** One stored row, in range, is enough: a candidate limit of 200 under the default threshold. */
  lemma OneRowUpsetsTheThreshold(env: Env)
    requires env.toInt("200") == Some(200) && forall s :: env.otherChecks(s)
    ensures var key := "RETRIEVAL_CANDIDATE_LIMIT";
            var table: Table := map[key := Spec(CANDIDATE_LIMIT, IntKind, 1.0, 200.0)];
            var base: Settings := map[CHUNK_SIZE := Int(1000), CHUNK_OVERLAP := Int(150), RRF_K := Int(60),
                                      CANDIDATE_LIMIT := Int(20), WEAK_EVIDENCE := Float(0.017)];
            var update: Settings := map[CANDIDATE_LIMIT := Int(200)];
            && TableOk(table) && Shaped(base) && Finalises(env, base)
            && Collected(env, table, map[key := "200"], update)
            && Shaped(base + update) && ReadResult(base, update, base + update) && !Finalises(env, base + update)
  {
    var key := "RETRIEVAL_CANDIDATE_LIMIT";
    var spec := Spec(CANDIDATE_LIMIT, IntKind, 1.0, 200.0);
    var rows: map<string, string> := map[key := "200"];
    assert Parse(env, spec, rows[key]) == Some(Int(200));
    assert key in rows;
  }
}
