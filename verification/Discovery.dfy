/** Route discovery: decoding ROUTE_<NAME>_<SUFFIX> variables into routes. */
module Discovery {
  import opened Options
  import opened Text
  import opened Config

  /********** Lists **********/

  const SEPARATORS: set<char> := {',', ' ', '\t', '\n'}

  /** The maximal runs of characters that are no separators; `field` is the one being read. */
  function Fields(raw: string, field: string): seq<string> {
    var done := if field == "" then [] else [field];
    if raw == "" then done
    else if raw[0] in SEPARATORS then done + Fields(raw[1..], "")
    else Fields(raw[1..], field + [raw[0]])
  }

  /** The fields, trimmed, without those that trimming empties. */
  function Kept(fields: seq<string>): seq<string> {
    if fields == [] then []
    else
      var f := Trim(fields[|fields| - 1], SPACE);
      Kept(fields[..|fields| - 1]) + if f == "" then [] else [f]
  }

  function SplitList(raw: string): seq<string> {
    Kept(Fields(raw, ""))
  }

  method SplitListLoop(raw: string) returns (out: seq<string>)
    ensures out == SplitList(raw)
  {
    var fields := Fields(raw, "");
    out := [];
    for i := 0 to |fields|
      invariant out == Kept(fields[..i])
    {
      assert fields[..i + 1][..i] == fields[..i];
      var f := Trim(fields[i], SPACE);
      if f != "" {
        out := out + [f];
      }
    }
    assert fields[..|fields|] == fields;
  }

  /** A list entry that survives splitting unchanged. */
  ghost predicate Item(s: string) {
    s != "" && forall i :: 0 <= i < |s| ==> s[i] !in {',', ' ', '\t', '\n', '\r', '\U{0B}', '\U{0C}'}
  }

  /** What may stand between two entries, or around them. */
  ghost predicate Gap(s: string) {
    forall i :: 0 <= i < |s| ==> s[i] == ',' || s[i] == ' ' || s[i] == '\t' || s[i] == '\n'
  }

  /** The entries with a gap before, after and between them. */
  function Spread(items: seq<string>, gaps: seq<string>): string
    requires |gaps| == |items| + 1
  {
    if items == [] then gaps[0] else gaps[0] + (items[0] + Spread(items[1..], gaps[1..]))
  }

  /** Entries and gaps of a list; no two entries touch. */
  ghost predicate List(items: seq<string>, gaps: seq<string>) {
    && |gaps| == |items| + 1
    && (forall i :: 0 <= i < |items| ==> Item(items[i]))
    && (forall i :: 0 <= i < |gaps| ==> Gap(gaps[i]))
    && (forall i :: 0 < i < |items| ==> gaps[i] != "")
  }

  lemma {:induction false} FieldsRead(item: string, rest: string, field: string)
    requires NoneIn(item, SEPARATORS)
    ensures Fields(item + rest, field) == Fields(rest, field + item)
  {
    if item == "" {
      assert item + rest == rest && field + item == field;
    } else {
      assert (item + rest)[1..] == item[1..] + rest;
      FieldsRead(item[1..], rest, field + [item[0]]);
      assert field + [item[0]] + item[1..] == field + item;
    }
  }

  lemma {:induction false} FieldsSkip(gap: string, rest: string)
    requires Gap(gap)
    ensures Fields(gap + rest, "") == Fields(rest, "")
  {
    if gap == "" {
      assert gap + rest == rest;
    } else {
      assert (gap + rest)[1..] == gap[1..] + rest;
      FieldsSkip(gap[1..], rest);
    }
  }

  lemma {:induction false} FieldsEnd(field: string, gap: string, rest: string)
    requires Gap(gap) && field != "" && (gap == "" ==> rest == "")
    ensures Fields(gap + rest, field) == [field] + Fields(rest, "")
  {
    if gap != "" {
      assert (gap + rest)[1..] == gap[1..] + rest;
      FieldsSkip(gap[1..], rest);
    } else {
      assert gap + rest == "";
    }
  }

  /** What follows the first gap. */
  function AfterGap(items: seq<string>, gaps: seq<string>): string
    requires |gaps| == |items| + 1
  {
    if items == [] then "" else items[0] + Spread(items[1..], gaps[1..])
  }

  lemma {:induction false} FieldsSpread(items: seq<string>, gaps: seq<string>)
    requires List(items, gaps)
    ensures Fields(AfterGap(items, gaps), "") == items
    ensures Spread(items, gaps) == gaps[0] + AfterGap(items, gaps)
  {
    if items == [] {
      assert gaps[0] + "" == gaps[0];
    } else {
      var item, rest, tail := items[0], items[1..], gaps[1..];
      FieldsSpread(rest, tail);
      FieldsRead(item, Spread(rest, tail), "");
      assert "" + item == item;
      FieldsEnd(item, tail[0], AfterGap(rest, tail));
      assert items == [item] + rest;
    }
  }

  lemma {:induction false} KeptAll(fields: seq<string>)
    requires forall i :: 0 <= i < |fields| ==> Item(fields[i])
    ensures Kept(fields) == fields
  {
    if fields != [] {
      KeptAll(fields[..|fields| - 1]);
      var f := fields[|fields| - 1];
      TrimNothing(f, SPACE);
      assert fields == fields[..|fields| - 1] + [f];
    }
  }

  /** Splitting finds the entries of a list, whatever gaps it is written with. */
  lemma {:induction false} SplitSpread(items: seq<string>, gaps: seq<string>)
    requires List(items, gaps)
    ensures SplitList(Spread(items, gaps)) == items
  {
    FieldsSpread(items, gaps);
    FieldsSkip(gaps[0], AfterGap(items, gaps));
    KeptAll(items);
  }

  lemma {:induction false} KeptClean(fields: seq<string>)
    ensures forall e :: e in Kept(fields) ==> e != "" && e[0] !in SPACE && e[|e| - 1] !in SPACE
  {
    if fields != [] {
      KeptClean(fields[..|fields| - 1]);
      TrimEnds(fields[|fields| - 1], SPACE);
    }
  }

  /** Whatever the text, no entry is empty or has white space around it. */
  lemma {:induction false} SplitClean(raw: string)
    ensures forall e :: e in SplitList(raw) ==> e != "" && e[0] !in SPACE && e[|e| - 1] !in SPACE
  {
    KeptClean(Fields(raw, ""));
  }

  /********** Decoding one variable name **********/

  const SUFFIXES: seq<string> := [
    "URL", "TARGETS", "PREFIX", "HOST", "STRIP_PREFIX", "REQUIRE_AUTH",
    "WEIGHT", "WEIGHTS", "TIMEOUT_SECS", "HEALTH_PATH", "PRESERVE_HOST"]

  /** An order of the suffixes that sorting by falling length, stable or not, may give. */
  ghost predicate LongestFirst(order: seq<string>) {
    ByLength(order) && forall s :: s in order <==> s in SUFFIXES
  }

  ghost predicate ByLength(order: seq<string>) {
    forall i, j :: 0 <= i < j < |order| ==> |order[i]| >= |order[j]|
  }

  /** Two orders of the same suffixes, both by falling length. */
  ghost predicate Tied(order: seq<string>, other: seq<string>) {
    ByLength(order) && ByLength(other) && forall s :: s in order <==> s in other
  }

  datatype Knob = Knob(name: string, suffix: string)

  function Spelled(k: Knob): string {
    k.name + "_" + k.suffix
  }

  predicate Fits(rest: string, suffix: string) {
    |rest| > |suffix| + 1 && HasSuffix(rest, "_" + suffix)
  }

  function Split(rest: string, suffix: string): Knob
    requires Fits(rest, suffix)
  {
    Knob(rest[..|rest| - |suffix| - 1], suffix)
  }

  function Decode(rest: string, order: seq<string>): Option<Knob> {
    if order == [] then None
    else if Fits(rest, order[0]) then Some(Split(rest, order[0]))
    else Decode(rest, order[1..])
  }

  /** Two fitting suffixes of one length are the same suffix, and the longer ends in the shorter. */
  lemma {:induction false} FitsNested(rest: string, long: string, short: string)
    requires Fits(rest, long) && Fits(rest, short) && |long| >= |short|
    ensures |long| == |short| ==> long == short
    ensures |long| > |short| ==> HasSuffix(long, "_" + short)
  {
    var n := |rest|;
    assert rest[n - |long| - 1..] == "_" + long && rest[n - |short| - 1..] == "_" + short;
    assert long == rest[n - |long|..] by { assert ("_" + long)[1..] == long; }
    assert short == rest[n - |short|..] by { assert ("_" + short)[1..] == short; }
    if |long| > |short| {
      assert long[|long| - |short| - 1..] == rest[n - |short| - 1..];
    }
  }

  /** `suffix` is the longest of the listed suffixes that fit. */
  ghost predicate Longest(rest: string, order: seq<string>, suffix: string) {
    suffix in order && Fits(rest, suffix) && forall s :: s in order && Fits(rest, s) ==> |s| <= |suffix|
  }

  lemma {:induction false} DecodeLongest(rest: string, order: seq<string>, suffix: string)
    requires ByLength(order)
    requires Longest(rest, order, suffix)
    ensures Decode(rest, order) == Some(Split(rest, suffix))
  {
    if Fits(rest, order[0]) {
      var k :| 0 <= k < |order| && order[k] == suffix;
      FitsNested(rest, order[0], suffix);
    } else {
      DecodeLongest(rest, order[1..], suffix);
    }
  }

  lemma {:induction false} DecodeNone(rest: string, order: seq<string>)
    ensures Decode(rest, order).None? <==> forall s :: s in order ==> !Fits(rest, s)
  {
    if order != [] {
      DecodeNone(rest, order[1..]);
    }
  }

  lemma {:induction false} LongestExists(rest: string, order: seq<string>, fit: string) returns (suffix: string)
    requires fit in order && Fits(rest, fit)
    ensures Longest(rest, order, suffix)
    decreases |rest| - |fit|
  {
    if s :| s in order && Fits(rest, s) && |s| > |fit| {
      suffix := LongestExists(rest, order, s);
    } else {
      suffix := fit;
    }
  }

  /** The order of suffixes of equal length does not matter. */
  lemma {:induction false} TieOrderIrrelevant(rest: string, order: seq<string>, other: seq<string>)
    requires Tied(order, other)
    ensures Decode(rest, order) == Decode(rest, other)
  {
    DecodeNone(rest, order);
    DecodeNone(rest, other);
    if s :| s in order && Fits(rest, s) {
      var suffix := LongestExists(rest, order, s);
      DecodeLongest(rest, order, suffix);
      DecodeLongest(rest, other, suffix);
    }
  }

  /** The names that make a longer suffix fit as well. */
  predicate Ambiguous(k: Knob) {
    || (k.suffix == "PREFIX" && HasSuffix(k.name, "_STRIP") && |k.name| > |"_STRIP"|)
    || (k.suffix == "HOST" && HasSuffix(k.name, "_PRESERVE") && |k.name| > |"_PRESERVE"|)
  }

  /** Only two recognised suffixes end in another one after an underscore. */
  lemma {:induction false} NestedSuffixes(long: string, short: string)
    requires long in SUFFIXES && short in SUFFIXES && HasSuffix(long, "_" + short)
    ensures (long == "STRIP_PREFIX" && short == "PREFIX") || (long == "PRESERVE_HOST" && short == "HOST")
  {
    var n := |long| - |short| - 1;
    assert long[n..] == "_" + short;
    assert long[n] == '_' && long[n + 1..] == short by {
      assert long[n] == ("_" + short)[0] && long[n + 1..] == ("_" + short)[1..];
    }
    LastCharDiffers(long, short);
  }

  lemma {:induction false} UnderscoreAt(sfx: string, i: nat)
    requires sfx in SUFFIXES && i < |sfx| && sfx[i] == '_'
    ensures || (sfx == "STRIP_PREFIX" && i == 5) || (sfx == "PRESERVE_HOST" && i == 8)
            || (sfx == "REQUIRE_AUTH" && i == 7) || (sfx == "TIMEOUT_SECS" && i == 7)
            || (sfx == "HEALTH_PATH" && i == 6)
  {
  }

  /** What follows the underscore is a suffix for the two pairs only. */
  lemma {:induction false} LastCharDiffers(long: string, short: string)
    requires long in SUFFIXES && short in SUFFIXES && |long| > |short| + 1
    requires long[|long| - |short| - 1] == '_' && long[|long| - |short|..] == short
    ensures (long == "STRIP_PREFIX" && short == "PREFIX") || (long == "PRESERVE_HOST" && short == "HOST")
  {
    UnderscoreAt(long, |long| - |short| - 1);
    if short == "AUTH" || short == "SECS" || short == "PATH" {
      TailNoSuffix(short);
    }
  }

  lemma {:induction false} TailNoSuffix(sfx: string)
    requires sfx == "AUTH" || sfx == "SECS" || sfx == "PATH"
    ensures sfx !in SUFFIXES
  {
    SuffixesRecognised(sfx);
  }

  /** A name and a suffix are decoded as written, except exactly when they are ambiguous. */
  lemma {:induction false} DecodeExact(k: Knob, order: seq<string>)
    requires k.name != "" && k.suffix in SUFFIXES && LongestFirst(order)
    ensures Decode(Spelled(k), order) == Some(k) <==> !Ambiguous(k)
  {
    var rest := Spelled(k);
    SpelledFits(k);
    var suffix := LongestExists(rest, order, k.suffix);
    DecodeLongest(rest, order, suffix);
    if suffix == k.suffix {
      if Ambiguous(k) {
        AmbiguousFits(k);
      }
    } else {
      FitsNested(rest, suffix, k.suffix);
      NestedSuffixes(suffix, k.suffix);
      FitsAmbiguous(k, suffix);
    }
  }

  lemma {:induction false} SpelledFits(k: Knob)
    requires k.name != ""
    ensures Fits(Spelled(k), k.suffix) && Split(Spelled(k), k.suffix) == k
  {
  }

  lemma {:induction false} FitsTail(name: string, short: string, head: string)
    requires name != ""
    ensures Fits(name + "_" + short, head + "_" + short) <==> HasSuffix(name, "_" + head) && |name| > |head| + 1
  {
    var rest := name + "_" + short;
    var tail := "_" + (head + "_" + short);
    assert tail == ("_" + head) + ("_" + short) && rest == name + ("_" + short);
    if |rest| >= |tail| {
      var n := |rest| - |tail|;
      assert rest[n..] == name[n..] + ("_" + short);
      if rest[n..] == tail {
        assert name[n..] == rest[n..][..|name| - n] == tail[..|name| - n] == "_" + head;
      }
    }
  }

  lemma {:induction false} Compounds()
    ensures "STRIP" + "_" + "PREFIX" == "STRIP_PREFIX" && "PRESERVE" + "_" + "HOST" == "PRESERVE_HOST"
    ensures "_" + "STRIP" == "_STRIP" && "_" + "PRESERVE" == "_PRESERVE"
    ensures "STRIP_PREFIX" in SUFFIXES && "PRESERVE_HOST" in SUFFIXES
  {
  }

  lemma {:induction false} AmbiguousFits(k: Knob)
    requires k.name != "" && Ambiguous(k)
    ensures exists s :: s in SUFFIXES && Fits(Spelled(k), s) && |s| > |k.suffix|
  {
    Compounds();
    if k.suffix == "PREFIX" {
      FitsTail(k.name, "PREFIX", "STRIP");
      assert Fits(Spelled(k), "STRIP_PREFIX");
    } else {
      FitsTail(k.name, "HOST", "PRESERVE");
      assert Fits(Spelled(k), "PRESERVE_HOST");
    }
  }

  lemma {:induction false} FitsAmbiguous(k: Knob, suffix: string)
    requires k.name != "" && Fits(Spelled(k), suffix)
    requires (suffix == "STRIP_PREFIX" && k.suffix == "PREFIX") || (suffix == "PRESERVE_HOST" && k.suffix == "HOST")
    ensures Ambiguous(k)
  {
    Compounds();
    if k.suffix == "PREFIX" {
      FitsTail(k.name, "PREFIX", "STRIP");
    } else {
      FitsTail(k.name, "HOST", "PRESERVE");
    }
  }

  /********** Grouping the environment **********/

  const TAG: string := "ROUTE_"

  datatype Variable = Variable(key: string, value: string)

  /** One entry of the environment, or None where it has no name. */
  function Parse(kv: string): Option<Variable> {
    match IndexOf(kv, '=')
    case None => None
    case Some(eq) => if eq == 0 then None else Some(Variable(kv[..eq], kv[eq + 1..]))
  }

  datatype Setting = Setting(knob: Knob, value: string)

  /** What an entry sets, or None if it is no route variable. */
  function SettingOf(kv: string, order: seq<string>): Option<Setting> {
    match Parse(kv)
    case None => None
    case Some(v) =>
      if !(TAG <= v.key) || v.value == "" then None
      else
        match Decode(v.key[|TAG|..], order)
        case None => None
        case Some(k) => Some(Setting(k, v.value))
  }

  type Groups = map<string, map<string, string>>

  function Group(m: Groups, name: string): map<string, string> {
    if name in m then m[name] else map[]
  }

  function Add(m: Groups, given: Option<Setting>): Groups {
    match given
    case None => m
    case Some(s) => m[s.knob.name := Group(m, s.knob.name)[s.knob.suffix := s.value]]
  }

  function Collect(env: seq<string>, order: seq<string>): Groups {
    if env == [] then map[]
    else Add(Collect(env[..|env| - 1], order), SettingOf(env[|env| - 1], order))
  }

  /** No variable is in the environment twice. */
  ghost predicate DistinctNames(env: seq<string>) {
    forall i, j :: 0 <= i < j < |env| && Parse(env[i]).Some? && Parse(env[j]).Some? ==>
      Parse(env[i]).value.key != Parse(env[j]).value.key
  }

  lemma {:induction false} DecodeSpells(rest: string, order: seq<string>)
    requires Decode(rest, order).Some?
    ensures Spelled(Decode(rest, order).value) == rest && Decode(rest, order).value.name != ""
  {
    if Fits(rest, order[0]) {
      var n := |rest| - |order[0]| - 1;
      assert rest[n..] == "_" + order[0];
      ConcatAssoc(rest[..n], "_", order[0]);
      assert rest == rest[..n] + rest[n..];
    } else {
      DecodeSpells(rest, order[1..]);
    }
  }

  /** Two entries that set the same knob have the same variable name. */
  lemma {:induction false} SameKnobSameKey(a: string, b: string, order: seq<string>)
    requires SettingOf(a, order).Some? && SettingOf(b, order).Some?
    requires SettingOf(a, order).value.knob == SettingOf(b, order).value.knob
    ensures Parse(a).value.key == Parse(b).value.key
  {
    var x, y := Parse(a).value.key, Parse(b).value.key;
    DecodeSpells(x[|TAG|..], order);
    DecodeSpells(y[|TAG|..], order);
    assert x == TAG + x[|TAG|..] && y == TAG + y[|TAG|..];
  }

  /** The groups hold exactly the settings of the environment. */
  ghost predicate Holds(env: seq<string>, order: seq<string>, m: Groups) {
    && (forall i :: 0 <= i < |env| && SettingOf(env[i], order).Some? ==> Has(m, SettingOf(env[i], order).value))
    && (forall s :: Has(m, s) ==> Sets(env, order, s))
    && (forall name :: name in m ==> m[name] != map[])
  }

  predicate Has(m: Groups, s: Setting) {
    s.knob.name in m && s.knob.suffix in m[s.knob.name] && m[s.knob.name][s.knob.suffix] == s.value
  }

  ghost predicate Sets(env: seq<string>, order: seq<string>, s: Setting) {
    exists i :: 0 <= i < |env| && SettingOf(env[i], order) == Some(s)
  }

  lemma {:induction false} CollectHolds(env: seq<string>, order: seq<string>)
    requires DistinctNames(env)
    ensures Holds(env, order, Collect(env, order))
  {
    if env != [] {
      var init, kv := env[..|env| - 1], env[|env| - 1];
      CollectHolds(init, order);
      HoldsAppend(init, kv, order, Collect(init, order));
      assert env == init + [kv];
    }
  }

  lemma {:induction false} HoldsAppend(env: seq<string>, kv: string, order: seq<string>, m: Groups)
    requires DistinctNames(env + [kv]) && Holds(env, order, m)
    ensures Holds(env + [kv], order, Add(m, SettingOf(kv, order)))
  {
    var all, given := env + [kv], SettingOf(kv, order);
    var more := Add(m, given);
    forall i | 0 <= i < |all| && SettingOf(all[i], order).Some? ensures Has(more, SettingOf(all[i], order).value) {
      if i < |env| {
        NoClash(env, kv, order, i);
        assert Has(m, SettingOf(env[i], order).value);
      }
    }
    forall s | Has(more, s) ensures Sets(all, order, s) {
      if given == Some(s) {
        assert SettingOf(all[|env|], order) == Some(s);
      } else {
        assert Has(m, s);
        var i :| 0 <= i < |env| && SettingOf(env[i], order) == Some(s);
        assert SettingOf(all[i], order) == Some(s);
      }
    }
    forall name | name in more ensures more[name] != map[] {
      if given.Some? && name == given.value.knob.name {
        assert given.value.knob.suffix in more[name];
      }
    }
  }

  lemma {:induction false} NoClash(env: seq<string>, kv: string, order: seq<string>, i: nat)
    requires DistinctNames(env + [kv]) && i < |env|
    ensures SettingOf(env[i], order).Some? && SettingOf(kv, order).Some? ==>
              SettingOf(env[i], order).value.knob != SettingOf(kv, order).value.knob
  {
    var a, b := SettingOf(env[i], order), SettingOf(kv, order);
    assert (env + [kv])[i] == env[i] && (env + [kv])[|env|] == kv;
    if a.Some? && b.Some? && a.value.knob == b.value.knob {
      SameKnobSameKey(env[i], kv, order);
    }
  }

  /** The environment entry that sets a knob. */
  function Exported(s: Setting): string {
    "ROUTE_" + Spelled(s.knob) + "=" + s.value
  }

  predicate Recognised(sfx: string) {
    || sfx == "URL" || sfx == "TARGETS" || sfx == "PREFIX" || sfx == "HOST" || sfx == "STRIP_PREFIX"
    || sfx == "REQUIRE_AUTH" || sfx == "WEIGHT" || sfx == "WEIGHTS" || sfx == "TIMEOUT_SECS"
    || sfx == "HEALTH_PATH" || sfx == "PRESERVE_HOST"
  }

  lemma {:induction false} SuffixesRecognised(sfx: string)
    ensures sfx in SUFFIXES <==> Recognised(sfx)
  {
    if Recognised(sfx) {
      assert sfx == SUFFIXES[0] || sfx == SUFFIXES[1] || sfx == SUFFIXES[2] || sfx == SUFFIXES[3] ||
             sfx == SUFFIXES[4] || sfx == SUFFIXES[5] || sfx == SUFFIXES[6] || sfx == SUFFIXES[7] ||
             sfx == SUFFIXES[8] || sfx == SUFFIXES[9] || sfx == SUFFIXES[10];
    }
  }

  /** A setting that can be exported: its name is not empty or ambiguous and its value is not empty. */
  ghost predicate Exportable(s: Setting) {
    && s.knob.name != "" && Recognised(s.knob.suffix) && !Ambiguous(s.knob)
    && Lacks(Spelled(s.knob), '=') && s.value != ""
  }

  /** An entry of the environment sets exactly what it exports. */
  lemma {:induction false} SettingExactly(kv: string, order: seq<string>, s: Setting)
    requires LongestFirst(order)
    ensures SettingOf(kv, order) == Some(s) <==> kv == Exported(s) && Exportable(s)
  {
    if Exportable(s) && kv == Exported(s) {
      ExportedSets(s, order);
    }
    if SettingOf(kv, order) == Some(s) {
      SettingSpelled(kv, order, s);
    }
  }

  lemma {:induction false} DecodedSuffix(rest: string, order: seq<string>)
    requires Decode(rest, order).Some?
    ensures Decode(rest, order).value.suffix in order
  {
    if !Fits(rest, order[0]) {
      DecodedSuffix(rest, order[1..]);
    }
  }

  lemma {:induction false} SettingSpelled(kv: string, order: seq<string>, s: Setting)
    requires LongestFirst(order) && SettingOf(kv, order) == Some(s)
    ensures kv == Exported(s) && Exportable(s)
  {
    var v := Parse(kv).value;
    var rest := v.key[|TAG|..];
    ParsedSpelled(kv);
    DecodeSpells(rest, order);
    DecodedSuffix(rest, order);
    SuffixesRecognised(s.knob.suffix);
    DecodeExact(s.knob, order);
    assert v.key == "ROUTE_" + rest;
  }

  lemma {:induction false} ParsedSpelled(kv: string)
    requires Parse(kv).Some?
    ensures var v := Parse(kv).value; kv == v.key + "=" + v.value && Lacks(v.key, '=')
  {
    IndexOfFirst(kv, '=');
  }

  /** An unambiguous setting, exported, arrives in the group of its route under its own suffix. */
  lemma {:induction false} SettingDelivered(env: seq<string>, order: seq<string>, s: Setting)
    requires DistinctNames(env) && LongestFirst(order) && Exported(s) in env && Exportable(s)
    ensures s.knob.name in Collect(env, order) && Value(Collect(env, order)[s.knob.name], s.knob.suffix) == s.value
  {
    ExportedSets(s, order);
    CollectHolds(env, order);
    var i :| 0 <= i < |env| && env[i] == Exported(s);
    assert Has(Collect(env, order), SettingOf(env[i], order).value);
  }

  lemma {:induction false} ExportedSets(s: Setting, order: seq<string>)
    requires LongestFirst(order) && Exportable(s)
    ensures SettingOf(Exported(s), order) == Some(s)
  {
    SuffixesRecognised(s.knob.suffix);
    var rest := Spelled(s.knob);
    TagParses(rest, s.value);
    DecodeExact(s.knob, order);
  }

  lemma {:induction false} TagParses(rest: string, value: string)
    requires Lacks(rest, '=')
    ensures Parse(TAG + rest + "=" + value) == Some(Variable(TAG + rest, value))
    ensures TAG <= TAG + rest && (TAG + rest)[|TAG|..] == rest
  {
    var key := TAG + rest;
    assert Lacks(TAG, '=');
    LacksConcat(TAG, rest, '=');
    IndexOfIs(key, '=', value);
    assert (key + "=" + value)[..|key|] == key && (key + "=" + value)[|key| + 1..] == value;
  }

  lemma {:induction false} SameHoldings(m: Groups, n: Groups)
    requires forall s :: Has(m, s) <==> Has(n, s)
    requires forall name :: name in m ==> m[name] != map[]
    requires forall name :: name in n ==> n[name] != map[]
    ensures m == n
  {
    forall name | name in m || name in n ensures name in m && name in n && m[name] == n[name] {
      var group := if name in m then m[name] else n[name];
      var sfx :| sfx in group;
      assert Has(m, Setting(Knob(name, sfx), group[sfx])) || Has(n, Setting(Knob(name, sfx), group[sfx]));
      forall x | x in m[name] || x in n[name] ensures x in m[name] && x in n[name] && m[name][x] == n[name][x] {
        var v := if x in m[name] then m[name][x] else n[name][x];
        assert Has(m, Setting(Knob(name, x), v)) || Has(n, Setting(Knob(name, x), v));
      }
    }
  }

  lemma {:induction false} SameEntries(env: seq<string>, other: seq<string>)
    requires multiset(env) == multiset(other)
    ensures forall kv :: kv in env <==> kv in other
  {
    forall kv ensures kv in env <==> kv in other {
      assert kv in env <==> kv in multiset(env);
      assert kv in other <==> kv in multiset(other);
    }
  }

  lemma {:induction false} CountedTwice(s: seq<string>, i: nat, j: nat)
    requires i < j < |s| && s[i] == s[j]
    ensures multiset(s)[s[i]] >= 2
  {
    assert s == s[..j] + [s[j]] + s[j + 1..];
    assert s[..j][i] == s[i];
    assert s[i] in multiset(s[..j]);
  }

  lemma {:induction false} FoundTwice(s: seq<string>, x: string) returns (i: nat, j: nat)
    requires multiset(s)[x] >= 2
    ensures i < j < |s| && s[i] == s[j] == x
  {
    assert x in multiset(s);
    i :| 0 <= i < |s| && s[i] == x;
    assert s == s[..i] + [x] + s[i + 1..];
    if x in multiset(s[..i]) {
      var k :| 0 <= k < i && s[..i][k] == x;
      i, j := k, i;
    } else {
      assert x in multiset(s[i + 1..]);
      var k :| 0 <= k < |s| - i - 1 && s[i + 1..][k] == x;
      j := i + 1 + k;
    }
  }

  /** Reordering keeps variable names distinct. */
  lemma {:induction false} DistinctNamesMove(env: seq<string>, other: seq<string>)
    requires multiset(env) == multiset(other) && DistinctNames(env)
    ensures DistinctNames(other)
  {
    SameEntries(env, other);
    forall i, j | 0 <= i < j < |other| && Parse(other[i]).Some? && Parse(other[j]).Some?
      ensures Parse(other[i]).value.key != Parse(other[j]).value.key
    {
      if other[i] == other[j] {
        CountedTwice(other, i, j);
        var p, q := FoundTwice(env, other[i]);
      } else {
        assert other[i] in env && other[j] in env;
        var p, q :| 0 <= p < |env| && 0 <= q < |env| && env[p] == other[i] && env[q] == other[j];
        assert p != q;
      }
    }
  }

  /** The groups do not depend on the order of the environment or of equally long suffixes. */
  lemma {:induction false} CollectDeterministic(env: seq<string>, other: seq<string>, order: seq<string>,
            order': seq<string>)
    requires multiset(env) == multiset(other) && DistinctNames(env)
    requires Tied(order, order')
    ensures Collect(env, order) == Collect(other, order')
  {
    SameEntries(env, other);
    DistinctNamesMove(env, other);
    CollectHolds(env, order);
    CollectHolds(other, order');
    forall s ensures Sets(env, order, s) <==> Sets(other, order', s) {
      SetsMoves(env, other, order, order', s);
      SetsMoves(other, env, order', order, s);
    }
    SameHoldings(Collect(env, order), Collect(other, order'));
  }

  lemma {:induction false} SetsMoves(env: seq<string>, other: seq<string>, order: seq<string>,
            order': seq<string>, s: Setting)
    requires forall kv :: kv in env ==> kv in other
    requires Tied(order, order')
    ensures Sets(env, order, s) ==> Sets(other, order', s)
  {
    if i :| 0 <= i < |env| && SettingOf(env[i], order) == Some(s) {
      assert env[i] in other;
      var k :| 0 <= k < |other| && other[k] == env[i];
      SettingTie(env[i], order, order');
    }
  }

  lemma {:induction false} SettingTie(kv: string, order: seq<string>, order': seq<string>)
    requires Tied(order, order')
    ensures SettingOf(kv, order) == SettingOf(kv, order')
  {
    var v := Parse(kv);
    if v.Some? && TAG <= v.value.key {
      TieOrderIrrelevant(v.value.key[|TAG|..], order, order');
    }
  }

  /********** Routes in order of their names **********/

  predicate Before(a: string, b: string) {
    b != "" && (a == "" || (if a[0] != b[0] then a[0] < b[0] else Before(a[1..], b[1..])))
  }

  lemma {:induction false} BeforeTotal(a: string, b: string)
    ensures !(Before(a, b) && Before(b, a))
    ensures Before(a, b) || Before(b, a) || a == b
    ensures !Before(a, a)
  {
    if a != "" {
      BeforeTotal(a[1..], a[1..]);
      if b != "" {
        BeforeTotal(a[1..], b[1..]);
        assert a == [a[0]] + a[1..] && b == [b[0]] + b[1..];
      }
    }
  }

  /** At the first difference `a` has ended or has the smaller character. */
  predicate DiffersAt(a: string, b: string, k: nat) {
    k <= |a| && k < |b| && a[..k] == b[..k] && (k == |a| || a[k] < b[k])
  }

  /** The order is the lexicographic one. */
  lemma {:induction false} BeforeExactly(a: string, b: string)
    ensures Before(a, b) <==> exists k: nat :: DiffersAt(a, b, k)
  {
    if b != "" && (a == "" || a[0] < b[0]) {
      assert DiffersAt(a, b, 0);
    } else if b != "" && a[0] == b[0] {
      BeforeExactly(a[1..], b[1..]);
      if k: nat :| DiffersAt(a[1..], b[1..], k) {
        assert a[..k + 1] == [a[0]] + a[1..][..k] && b[..k + 1] == [b[0]] + b[1..][..k];
        assert DiffersAt(a, b, k + 1);
      }
      if k: nat :| DiffersAt(a, b, k) {
        assert a[1..][..k - 1] == a[..k][1..] && b[1..][..k - 1] == b[..k][1..];
        assert DiffersAt(a[1..], b[1..], k - 1);
      }
    }
  }

  lemma {:induction false} BeforeTransitive(a: string, b: string, c: string)
    requires Before(a, b) && Before(b, c)
    ensures Before(a, c)
  {
    if a != "" && a[0] == b[0] && b[0] == c[0] {
      BeforeTransitive(a[1..], b[1..], c[1..]);
    }
  }

  ghost predicate Ascending(names: seq<string>) {
    forall i, j :: 0 <= i < j < |names| ==> Before(names[i], names[j])
  }

  /** A set of names has one ascending enumeration, so any sorting routine gives this one. */
  lemma {:induction false} AscendingUnique(a: seq<string>, b: seq<string>)
    requires Ascending(a) && Ascending(b) && forall n :: n in a <==> n in b
    ensures a == b
  {
    assert |a| > 0 ==> a[0] in b;
    assert |b| > 0 ==> b[0] in a;
    if a != [] {
      BeforeTotal(a[0], b[0]);
      assert a[0] == b[0];
      forall n ensures n in a[1..] <==> n in b[1..] {
        BeforeTotal(a[0], a[0]);
        assert n in a <==> n == a[0] || n in a[1..];
        assert n in b <==> n == b[0] || n in b[1..];
      }
      AscendingUnique(a[1..], b[1..]);
      assert a == [a[0]] + a[1..] && b == [b[0]] + b[1..];
    }
  }

  function InsertName(names: seq<string>, n: string): seq<string> {
    if names == [] || Before(n, names[0]) then [n] + names
    else [names[0]] + InsertName(names[1..], n)
  }

  lemma {:induction false} InsertNameKeeps(names: seq<string>, n: string)
    requires Ascending(names) && n !in names
    ensures Ascending(InsertName(names, n))
    ensures forall x :: x in InsertName(names, n) <==> x == n || x in names
  {
    if names != [] && !Before(n, names[0]) {
      BeforeTotal(n, names[0]);
      InsertNameKeeps(names[1..], n);
      assert forall x :: x in names <==> x == names[0] || x in names[1..];
      AscendingCons(names[0], InsertName(names[1..], n));
    } else if names != [] {
      forall j | 0 <= j < |names| ensures Before(n, names[j]) {
        if j > 0 { BeforeTransitive(n, names[0], names[j]); }
      }
      AscendingCons(n, names);
    }
  }

  lemma {:induction false} AscendingCons(n: string, names: seq<string>)
    requires Ascending(names) && forall x :: x in names ==> Before(n, x)
    ensures Ascending([n] + names)
  {
  }

  /** How values are read; the number and boolean syntax is Go's strconv. */
  datatype Readers = Readers(parseBool: string -> Option<bool>, parseInt: string -> Option<int>)

  /** What a reader makes of a value: trimmed, and the fallback where it is empty or unreadable. */
  function ReadOr<T>(read: string -> Option<T>, v: string, fallback: T): T {
    if v == "" then fallback
    else match read(Trim(v, SPACE)) case Some(x) => x case None => fallback
  }

  function Value(f: map<string, string>, suffix: string): string {
    if suffix in f then f[suffix] else ""
  }

  function WeightList(rd: Readers, items: seq<string>): seq<int> {
    seq(|items|, i requires 0 <= i < |items| => ReadOr(rd.parseInt, items[i], 1))
  }

  /** The route a group of settings describes; None if it names no upstream. */
  function RouteFor(rd: Readers, name: string, f: map<string, string>): Option<ServiceRoute> {
    var targets := SplitList(Value(f, "TARGETS"));
    if Value(f, "URL") == "" && targets == [] then None
    else Some(ServiceRoute(
      Lower(name), Value(f, "HOST"), if Value(f, "PREFIX") == "" then "/" else Value(f, "PREFIX"),
      Value(f, "URL"), targets,
      ReadOr(rd.parseBool, Value(f, "STRIP_PREFIX"), true),
      ReadOr(rd.parseBool, Value(f, "REQUIRE_AUTH"), false),
      ReadOr(rd.parseInt, Value(f, "WEIGHT"), 1), WeightList(rd, SplitList(Value(f, "WEIGHTS"))),
      ReadOr(rd.parseInt, Value(f, "TIMEOUT_SECS"), 30), Value(f, "HEALTH_PATH"),
      ReadOr(rd.parseBool, Value(f, "PRESERVE_HOST"), false)))
  }

  /** `got` is what the reader makes of the trimmed value, or the fallback where it makes nothing of it. */
  ghost predicate ReadAs<T>(read: string -> Option<T>, v: string, fallback: T, got: T) {
    match read(Trim(v, SPACE)) case Some(x) => got == x case None => got == fallback
  }

  /** An exported variable ends up in the field of the route that its suffix names. */
  lemma {:induction false} RouteCarries(env: seq<string>, order: seq<string>, rd: Readers, s: Setting,
            items: seq<string>, gaps: seq<string>, r: ServiceRoute)
    requires DistinctNames(env) && LongestFirst(order) && Exported(s) in env && Exportable(s)
    requires List(items, gaps)
    requires RouteFor(rd, s.knob.name, Group(Collect(env, order), s.knob.name)) == Some(r)
    ensures r.name == Lower(s.knob.name)
    ensures match s.knob.suffix
            case "HOST" => r.host == s.value
            case "PREFIX" => r.prefix == s.value
            case "URL" => r.targetURL == s.value
            case "HEALTH_PATH" => r.healthPath == s.value
            case "TARGETS" => s.value == Spread(items, gaps) ==> r.targets == items
            case "STRIP_PREFIX" => ReadAs(rd.parseBool, s.value, true, r.stripPrefix)
            case "REQUIRE_AUTH" => ReadAs(rd.parseBool, s.value, false, r.requireAuth)
            case "PRESERVE_HOST" => ReadAs(rd.parseBool, s.value, false, r.preserveHost)
            case "WEIGHT" => ReadAs(rd.parseInt, s.value, 1, r.weight)
            case "TIMEOUT_SECS" => ReadAs(rd.parseInt, s.value, 30, r.timeoutSecs)
            case _ => // WEIGHTS
                      s.value == Spread(items, gaps) ==>
                        && |r.weights| == |items|
                        && forall i :: 0 <= i < |items| ==> ReadAs(rd.parseInt, items[i], 1, r.weights[i])
  {
    SettingDelivered(env, order, s);
    SplitSpread(items, gaps);
  }

  /** No entry of the environment sets the knob to anything. */
  ghost predicate Unset(env: seq<string>, k: Knob) {
    forall value: string :: value != "" ==> Exported(Setting(k, value)) !in env
  }

  /** What is not exported has its default. */
  lemma {:induction false} RouteDefaults(env: seq<string>, order: seq<string>, rd: Readers, name: string, sfx: string,
            r: ServiceRoute)
    requires DistinctNames(env) && LongestFirst(order) && Unset(env, Knob(name, sfx))
    requires RouteFor(rd, name, Group(Collect(env, order), name)) == Some(r)
    ensures match sfx
            case "HOST" => r.host == ""
            case "PREFIX" => r.prefix == "/"
            case "URL" => r.targetURL == ""
            case "HEALTH_PATH" => r.healthPath == ""
            case "TARGETS" => r.targets == []
            case "STRIP_PREFIX" => r.stripPrefix
            case "REQUIRE_AUTH" => !r.requireAuth
            case "PRESERVE_HOST" => !r.preserveHost
            case "WEIGHT" => r.weight == 1
            case "TIMEOUT_SECS" => r.timeoutSecs == 30
            case "WEIGHTS" => r.weights == []
            case _ => true
  {
    UnsetAbsent(env, order, name, sfx);
    assert SplitList("") == [];
  }

  lemma {:induction false} UnsetAbsent(env: seq<string>, order: seq<string>, name: string, sfx: string)
    requires DistinctNames(env) && LongestFirst(order) && Unset(env, Knob(name, sfx))
    ensures sfx !in Group(Collect(env, order), name)
  {
    var m := Collect(env, order);
    CollectHolds(env, order);
    if sfx in Group(m, name) {
      var s := Setting(Knob(name, sfx), m[name][sfx]);
      assert Has(m, s);
      var i :| 0 <= i < |env| && SettingOf(env[i], order) == Some(s);
      SettingExactly(env[i], order, s);
    }
  }

  /** From a name and its settings to a route. */
  type Describer = (string, map<string, string>) -> Option<ServiceRoute>

  function Describe(rd: Readers): Describer {
    (name: string, f: map<string, string>) => RouteFor(rd, name, f)
  }

  /** `names` are, in ascending order, the groups that describe a route. */
  ghost predicate Described(describe: Describer, m: Groups, names: seq<string>) {
    Ascending(names) && forall n :: n in names <==> n in m && describe(n, m[n]).Some?
  }

  /** `routes` are the routes of the groups that describe one, in ascending order of their names. */
  ghost predicate Listed(describe: Describer, m: Groups, routes: seq<ServiceRoute>) {
    exists names :: Described(describe, m, names) && Matching(describe, m, names, routes)
  }

  ghost predicate Matching(describe: Describer, m: Groups, names: seq<string>, routes: seq<ServiceRoute>) {
    |names| == |routes| &&
    forall k :: 0 <= k < |names| ==> describe(names[k], Group(m, names[k])) == Some(routes[k])
  }

  /** `routes` are the routes of the environment. */
  ghost predicate Loaded(env: seq<string>, order: seq<string>, rd: Readers, routes: seq<ServiceRoute>) {
    Listed(Describe(rd), Collect(env, order), routes)
  }

  method DecodeKey(rest: string, order: seq<string>) returns (knob: Option<Knob>)
    ensures knob == Decode(rest, order)
  {
    for i := 0 to |order|
      invariant Decode(rest, order) == Decode(rest, order[i..])
    {
      var sfx := order[i];
      if |rest| > |sfx| + 1 && HasSuffix(rest, "_" + sfx) {
        return Some(Knob(rest[..|rest| - |sfx| - 1], sfx));
      }
    }
    return None;
  }

  method CollectLoop(env: seq<string>, order: seq<string>) returns (byName: Groups)
    ensures byName == Collect(env, order)
  {
    byName := map[];
    for i := 0 to |env|
      invariant byName == Collect(env[..i], order)
    {
      assert env[..i + 1][..i] == env[..i];
      match Parse(env[i])
      case None =>
      case Some(v) =>
        if TAG <= v.key && v.value != "" {
          var knob := DecodeKey(v.key[|TAG|..], order);
          if knob.Some? {
            byName := Add(byName, Some(Setting(knob.value, v.value)));
          }
        }
    }
    assert env[..|env|] == env;
  }

  /** The keys of a map come in any order; sorting makes the enumeration deterministic. */
  method SortedNames(m: Groups) returns (names: seq<string>)
    ensures Ascending(names) && forall n :: n in names <==> n in m
  {
    names := [];
    var todo := m.Keys;
    while todo != {}
      invariant Ascending(names) && todo <= m.Keys
      invariant forall n :: n in names <==> n in m && n !in todo
      decreases todo
    {
      var n :| n in todo;
      InsertNameKeeps(names, n);
      names := InsertName(names, n);
      todo := todo - {n};
    }
  }

  method ListRoutes(describe: Describer, m: Groups) returns (routes: seq<ServiceRoute>)
    ensures Listed(describe, m, routes)
  {
    var names := SortedNames(m);
    ghost var kept: seq<string> := [];
    routes := [];
    for i := 0 to |names|
      invariant Ascending(kept) && Matching(describe, m, kept, routes)
      invariant forall n :: n in kept <==> n in names[..i] && describe(n, Group(m, n)).Some?
    {
      assert names[..i + 1] == names[..i] + [names[i]];
      match describe(names[i], Group(m, names[i]))
      case None =>
      case Some(r) =>
        AscendingAppend(kept, names[i]);
        kept, routes := kept + [names[i]], routes + [r];
    }
    assert names[..|names|] == names;
    assert Described(describe, m, kept);
  }

  lemma {:induction false} AscendingAppend(names: seq<string>, n: string)
    requires Ascending(names) && forall x :: x in names ==> Before(x, n)
    ensures Ascending(names + [n])
  {
  }

  method LoadEnvNamedRoutes(env: seq<string>, order: seq<string>, rd: Readers) returns (routes: seq<ServiceRoute>)
    ensures Loaded(env, order, rd, routes)
  {
    var byName := CollectLoop(env, order);
    routes := ListRoutes(Describe(rd), byName);
  }

  lemma {:induction false} ListedUnique(describe: Describer, m: Groups, a: seq<ServiceRoute>, b: seq<ServiceRoute>)
    requires Listed(describe, m, a) && Listed(describe, m, b)
    ensures a == b
  {
    var x :| Described(describe, m, x) && Matching(describe, m, x, a);
    var y :| Described(describe, m, y) && Matching(describe, m, y, b);
    AscendingUnique(x, y);
    forall k | 0 <= k < |a| ensures a[k] == b[k] {
      assert describe(x[k], Group(m, x[k])) == Some(a[k]) && describe(y[k], Group(m, y[k])) == Some(b[k]);
    }
  }

  /** The group names somewhere to send traffic. */
  predicate HasUpstream(f: map<string, string>) {
    Value(f, "URL") != "" || SplitList(Value(f, "TARGETS")) != []
  }

  /**
   * What is loaded: one route for every group that names an upstream, no other, in ascending order
   * of the names.
   */
  lemma {:induction false} LoadedExactly(env: seq<string>, order: seq<string>, rd: Readers, routes: seq<ServiceRoute>)
    returns (names: seq<string>)
    requires Loaded(env, order, rd, routes)
    ensures Ascending(names) && |names| == |routes|
    ensures forall n :: n in names <==> n in Collect(env, order) && HasUpstream(Collect(env, order)[n])
    ensures forall k :: 0 <= k < |names| ==>
              RouteFor(rd, names[k], Group(Collect(env, order), names[k])) == Some(routes[k])
  {
    var m := Collect(env, order);
    names :| Described(Describe(rd), m, names) && Matching(Describe(rd), m, names, routes);
  }

  /** An exported URL, or list of targets that is not empty, makes a route with it. */
  lemma {:induction false} UpstreamLoaded(env: seq<string>, order: seq<string>, rd: Readers, routes: seq<ServiceRoute>,
            s: Setting, items: seq<string>, gaps: seq<string>) returns (k: nat)
    requires DistinctNames(env) && LongestFirst(order) && Exported(s) in env && Exportable(s)
    requires List(items, gaps) && Loaded(env, order, rd, routes)
    requires s.knob.suffix == "URL" || (s.knob.suffix == "TARGETS" && s.value == Spread(items, gaps) && items != [])
    ensures k < |routes| && routes[k].name == Lower(s.knob.name)
    ensures if s.knob.suffix == "URL" then routes[k].targetURL == s.value else routes[k].targets == items
  {
    var names := LoadedExactly(env, order, rd, routes);
    SettingDelivered(env, order, s);
    SplitSpread(items, gaps);
    k :| 0 <= k < |names| && names[k] == s.knob.name;
    RouteCarries(env, order, rd, s, items, gaps, routes[k]);
  }

  lemma {:induction false} OthersIgnored(env: seq<string>, order: seq<string>)
    requires LongestFirst(order) && forall i :: 0 <= i < |env| ==> !("ROUTE_" <= env[i])
    ensures Collect(env, order) == map[]
  {
    if env != [] {
      OthersIgnored(env[..|env| - 1], order);
      var given := SettingOf(env[|env| - 1], order);
      if given.Some? {
        SettingExactly(env[|env| - 1], order, given.value);
        ConcatAssoc("ROUTE_", Spelled(given.value.knob), "=");
        ConcatAssoc("ROUTE_", Spelled(given.value.knob) + "=", given.value.value);
      }
    }
  }

  lemma {:induction false} UrlCollected(others: seq<string>, order: seq<string>, s: Setting)
    requires LongestFirst(order) && forall i :: 0 <= i < |others| ==> !("ROUTE_" <= others[i])
    requires Exportable(s)
    ensures Collect(others + [Exported(s)], order) == map[s.knob.name := map[s.knob.suffix := s.value]]
  {
    OthersIgnored(others, order);
    SettingExactly(Exported(s), order, s);
    assert (others + [Exported(s)])[..|others|] == others;
  }

  /** One exported URL, among any variables of other names: one route, with every default. */
  lemma {:induction false} UrlAlone(others: seq<string>, order: seq<string>, rd: Readers, routes: seq<ServiceRoute>,
            s: Setting)
    requires LongestFirst(order) && forall i :: 0 <= i < |others| ==> !("ROUTE_" <= others[i])
    requires Exportable(s) && s.knob.suffix == "URL"
    requires Loaded(others + [Exported(s)], order, rd, routes)
    ensures routes == [ServiceRoute(Lower(s.knob.name), "", "/", s.value, [], true, false, 1, [], 30, "", false)]
  {
    var m := Collect(others + [Exported(s)], order);
    UrlCollected(others, order, s);
    var names := LoadedExactly(others + [Exported(s)], order, rd, routes);
    OnlyName(names, s.knob.name);
    UrlDescribes(rd, s.knob.name, s.value);
    assert routes == [routes[0]];
  }

  lemma {:induction false} UrlDescribes(rd: Readers, name: string, url: string)
    requires url != ""
    ensures RouteFor(rd, name, map["URL" := url]) ==
            Some(ServiceRoute(Lower(name), "", "/", url, [], true, false, 1, [], 30, "", false))
    ensures HasUpstream(map["URL" := url])
  {
    assert SplitList("") == [];
    assert WeightList(rd, []) == [];
  }

  lemma {:induction false} OnlyName(names: seq<string>, n: string)
    requires Ascending(names) && forall x :: x in names <==> x == n
    ensures names == [n]
  {
    AscendingUnique(names, [n]);
  }

  lemma {:induction false} ExampleExportable(s: Setting)
    requires s == Setting(Knob("X", "URL"), "http://a:1")
    ensures Exportable(s) && Exported(s) == "ROUTE_X_URL=http://a:1" && Lower(s.knob.name) == "x"
  {
  }

  lemma {:induction false} ExampleLoaded(others: seq<string>, kv: string, order: seq<string>, rd: Readers,
            routes: seq<ServiceRoute>)
    requires others == ["HOME=/root"] && kv == "ROUTE_X_URL=http://a:1" && LongestFirst(order)
    requires Loaded(others + [kv], order, rd, routes)
    ensures routes == [ServiceRoute("x", "", "/", "http://a:1", [], true, false, 1, [], 30, "", false)]
  {
    var s := Setting(Knob("X", "URL"), "http://a:1");
    ExampleExportable(s);
    UrlAlone(others, order, rd, routes, s);
  }

  /** Discovery is deterministic: neither the order of the environment nor the sort's ties matter. */
  lemma {:induction false} DiscoveryDeterministic(env: seq<string>, other: seq<string>, order: seq<string>,
            order': seq<string>, rd: Readers, a: seq<ServiceRoute>, b: seq<ServiceRoute>)
    requires multiset(env) == multiset(other) && DistinctNames(env)
    requires LongestFirst(order) && LongestFirst(order')
    requires Loaded(env, order, rd, a) && Loaded(other, order', rd, b)
    ensures a == b
  {
    CollectDeterministic(env, other, order, order');
    ListedUnique(Describe(rd), Collect(env, order), a, b);
  }
}
