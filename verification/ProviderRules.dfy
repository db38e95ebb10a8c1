/** The text rules behind an imported provider in acp/src/cc_switch.rs, written out: the slug
    of a label, the id of a model, and where its credentials come from. */
module ProviderRules {
  import opened Text
  import opened ProviderNames
  import opened CcSwitch

  // ----- slugs --------------------------------------------------------------

  /** ASCII letters and digits, by their codes. */
  lemma LetterExactly(c: char)
    ensures IsLetter(c) <==> 48 <= c as int <= 57 || 65 <= c as int <= 90 || 97 <= c as int <= 122
  {
  }

  predicate Letters(w: string) { w != "" && forall i :: 0 <= i < |w| ==> IsLetter(w[i]) }

  predicate NoLetters(w: string) { forall i :: 0 <= i < |w| ==> !IsLetter(w[i]) }

  /** ASCII capitals lowered, everything else as it is. */
  function Lowered(w: string): (r: string)
    ensures |r| == |w|
    ensures forall i :: 0 <= i < |w| ==>
              r[i] as int == if 'A' <= w[i] <= 'Z' then w[i] as int - 'A' as int + 'a' as int else w[i] as int
  {
    seq(|w|, i requires 0 <= i < |w| => Lower(w[i]))
  }

  /** A run of letters and digits behind anything else is one word of the slug, lowered. */
  lemma {:induction false} RunsOfRun(front: string, w: string)
    requires Letters(w) && !EndsInLetter(front)
    ensures Runs(front + w) == Runs(front) + [Lowered(w)]
    decreases |w|
  {
    hide IsLetter, Lower;
    var s, n := front + w, |w| - 1;
    assert s[..|s| - 1] == front + w[..n];
    if n == 0 {
      assert front + w[..n] == front && Lowered(w) == [Lower(w[0])];
    } else {
      RunsOfRun(front, w[..n]);
      assert Lowered(w) == Lowered(w[..n]) + [Lower(w[n])];
      var runs := Runs(front) + [Lowered(w[..n])];
      assert runs[|runs| - 1 := Lowered(w[..n]) + [Lower(w[n])]] == Runs(front) + [Lowered(w)];
    }
  }

  /** Other characters add nothing. */
  lemma {:induction false} RunsOfGap(front: string, gap: string)
    requires NoLetters(gap)
    ensures Runs(front + gap) == Runs(front)
    decreases |gap|
  {
    var n := |gap| - 1;
    if gap == "" {
      assert front + gap == front;
    } else {
      assert (front + gap)[..|front| + n] == front + gap[..n];
      RunsOfGap(front, gap[..n]);
    }
  }

  /** How a slug grows: a label ending in characters other than letters and digits has the slug of what comes before
      them; one that goes on with a run of letters and digits gets that run, lowered, behind a hyphen. A
      label without any is `provider`. */
  lemma SlugExactly(front: string, gap: string, run: string)
    requires NoLetters(gap) && Letters(run) && (gap == "" ==> front == "" || !IsLetter(front[|front| - 1]))
    ensures Slug(gap) == "provider" && Slug(gap + run) == Lowered(run)
    ensures Slug(front + gap) == Slug(front)
    ensures (exists i :: 0 <= i < |front| && IsLetter(front[i])) ==>
              Slug(front + gap + run) == Slug(front) + "-" + Lowered(run)
  {
    hide IsLetter, Runs, Hyphenated, Lowered;
    NoRuns();
    RunsOfGap(front, gap);
    RunsOfGap("", gap);
    assert "" + gap == gap;
    LastOf(front, gap);
    RunsOfRun(front + gap, run);
    HyphenatedAppend(Runs(front), Lowered(run));
    HyphenatedAppend([], Lowered(run));
    assert [] + [Lowered(run)] == [Lowered(run)];
    RunsOfRun(gap, run);
    SomeRun(front);
  }

  lemma LastOf(front: string, gap: string)
    requires NoLetters(gap) && (gap == "" ==> front == "" || !IsLetter(front[|front| - 1]))
    ensures !EndsInLetter(front + gap) && !EndsInLetter(gap)
  {
  }

  lemma {:induction false} SomeRun(s: string)
    ensures Runs(s) != [] <==> exists i :: 0 <= i < |s| && IsLetter(s[i])
    decreases |s|
  {
    hide IsLetter, Lower;
    if s != "" {
      var n := |s| - 1;
      SomeRun(s[..n]);
      assert s == s[..n] + [s[n]];
      if exists i :: 0 <= i < |s| && IsLetter(s[i]) {
        var i :| 0 <= i < |s| && IsLetter(s[i]);
        assert i < n ==> IsLetter(s[..n][i]);
      }
    }
  }

  // ----- credentials --------------------------------------------------------

  /** What a variable gives: its text, trimmed, unless it is missing, no text or blank. */
  function Given(env: Env, key: string): Option<string> {
    if key in env && env[key].Value? && !AllWhitespace(env[key].text) then Some(Trim(env[key].text)) else None
  }

  lemma {:induction false} BlankTrims(s: string)
    ensures Trim(s) == "" <==> AllWhitespace(s)
  {
    var before, after := TrimCuts(s);
    if Trim(s) == "" {
      assert s == before + after;
    } else {
      assert s[|before|] == Trim(s)[0];
    }
  }

  lemma GivenIs(env: Env, key: string)
    ensures Given(env, key) == NonEmpty(Get(env, key))
  {
    hide Trim, AllWhitespace;
    if key in env && env[key].Value? { BlankTrims(env[key].text); }
  }

  function Else(a: Option<string>, b: Option<string>): Option<string> { if a.Some? then a else b }

  /** The token is the first one given of three variables; the address is the proxy's, or the first one
      given of two; the model asked for is that of one variable. */
  lemma CredentialsExactly(env: Env, proxy: Option<string>)
    ensures ApiKey(env) == Else(Given(env, "ANTHROPIC_AUTH_TOKEN"),
                                Else(Given(env, "ANTHROPIC_API_KEY"), Given(env, "ANTHROPIC_API_TOKEN")))
    ensures BaseUrl(env, proxy) == Else(proxy, Else(Given(env, "ANTHROPIC_BASE_URL"), Given(env, "ANTHROPIC_BASE_URI")))
    ensures Wanted(env).Some? <==> Given(env, "ANTHROPIC_MODEL").Some?
    ensures Wanted(env).Some? ==> Wanted(env).value == ModelId(Given(env, "ANTHROPIC_MODEL").value)
  {
    hide Given, NonEmpty, Get, ModelId;
    ThreeKeys(env, "ANTHROPIC_AUTH_TOKEN", "ANTHROPIC_API_KEY", "ANTHROPIC_API_TOKEN");
    ThreeKeys(env, "ANTHROPIC_BASE_URL", "ANTHROPIC_BASE_URI", "");
    ThreeKeys(env, "ANTHROPIC_MODEL", "", "");
  }

  lemma ThreeKeys(env: Env, a: string, b: string, c: string)
    ensures FirstNonEmpty(env, [a]) == Given(env, a)
    ensures FirstNonEmpty(env, [a, b]) == Else(Given(env, a), Given(env, b))
    ensures FirstNonEmpty(env, [a, b, c]) == Else(Given(env, a), Else(Given(env, b), Given(env, c)))
  {
    hide Given, NonEmpty, Get;
    GivenIs(env, a);
    GivenIs(env, b);
    GivenIs(env, c);
    assert [a][1..] == [] && [b][1..] == [] && [c][1..] == [] && [a, b][1..] == [b] && [b, c][1..] == [c];
    assert [a, b, c][1..] == [b, c];
    assert FirstNonEmpty(env, [b]) == Else(Given(env, b), None) && FirstNonEmpty(env, [c]) == Else(Given(env, c), None);
    assert FirstNonEmpty(env, [b, c]) == Else(Given(env, b), Given(env, c));
  }

  // ----- model ids ----------------------------------------------------------

  /** One or more digits and a unit, with white space around them. */
  predicate Window(hint: string) {
    var h := Trim(hint);
    && |h| >= 2 && (forall i :: 0 <= i < |h| - 1 ==> '0' <= h[i] <= '9')
    && var unit := h[|h| - 1]; unit == 'k' || unit == 'K' || unit == 'm' || unit == 'M'
  }

  /** `t` is a name with a context window in brackets behind it. */
  predicate Hinted(t: string, name: string, hint: string) {
    t == name + "[" + hint + "]" && name != "" && '[' !in hint && Window(hint)
  }

  lemma WindowIs(hint: string)
    ensures Window(hint) <==> ContextHint(hint)
  {
    hide Trim;
  }

  lemma BracketIs(name: string, hint: string)
    requires '[' !in hint
    ensures var t := name + "[" + hint + "]"; LastBracket(t) == |name| && t[|name| + 1..|t| - 1] == hint && t[|t| - 1] == ']'
  {
    hide LastBracket;
    var t := name + "[" + hint + "]";
    forall k | |name| < k < |t| ensures t[k] != '[' { assert k < |t| - 1 ==> t[k] == hint[k - |name| - 1]; }
    assert t[|name|] == '[';
    assert LastBracket(t) >= |name|;
  }

  /** A context window in brackets is taken off the id, with the white space before it. */
  lemma HintTaken(raw: string, name: string, hint: string)
    requires Hinted(Trim(raw), name, hint)
    ensures ModelId(raw) == Trim(name)
  {
    hide Trim, LastBracket, Window, ContextHint;
    BracketIs(name, hint);
    WindowIs(hint);
    var t := name + "[" + hint + "]";
    assert t[..|name|] == name;
  }

  /** Any other text is its own id, trimmed. */
  lemma NoHintKept(raw: string)
    requires forall name: string, hint: string :: !Hinted(Trim(raw), name, hint)
    ensures ModelId(raw) == Trim(raw)
  {
    hide Trim, LastBracket, Window, ContextHint;
    var t := Trim(raw);
    var open := LastBracket(t);
    if open > 0 && t[|t| - 1] == ']' {
      var name, hint := t[..open], t[open + 1..|t| - 1];
      assert t == name + "[" + hint + "]";
      WindowIs(hint);
      assert !Hinted(t, name, hint);
    }
  }

  /** The id a variable or an item gives: that of its text, unless nothing is left of it. */
  lemma IdExactly(env: Env, key: string)
    ensures var text := Given(env, key);
            IdOf(Get(env, key)) == if text.None? || ModelId(text.value) == "" then None else Some(ModelId(text.value))
  {
    hide Given, NonEmpty, Get, ModelId;
    GivenIs(env, key);
  }

  /** A model variable `X_MODEL` gives an id, and `X_MODEL_NAME` its display name. */
  lemma SlotExactly(env: Env, stem: string)
    ensures SlotOf(env, stem + "_MODEL") ==
              var id := IdOf(Get(env, stem + "_MODEL"));
              if id.None? then None else Some(Slot(id.value, Given(env, stem + "_MODEL_NAME")))
  {
    hide Given, NonEmpty, Get, IdOf;
    var key := stem + "_MODEL";
    assert key[|key| - 6..] == "_MODEL" && key[..|key| - 6] == stem;
    GivenIs(env, stem + "_MODEL_NAME");
  }

  // ----- the imported provider ---------------------------------------------

  /** What the picker shows for the models of row `k`: their own names for the current profile, and behind the
      profile's title for any other. */
  function Shown(rows: seq<Profile>, k: nat, name: string): string
    requires k < |rows|
  {
    if rows[k].isCurrent && (forall j :: 0 <= j < k ==> !rows[j].isCurrent) then name
    else rows[k].title + " \U{00B7} " + name
  }

  /** An imported row in full: the models its settings offer, in order, shown under these names, each with the
      token and address of the profile; the default is the model asked for if it is among them, else the first. */
  lemma ImportExactly(rows: seq<Profile>, proxy: Option<string>, names: seq<string>, i: Import, k: nat)
    returns (plain: seq<Model>)
    requires RowImported(rows, proxy, names, i, k)
    ensures rows[k].settings.env.Some? && Offered(rows[k].settings, rows[k].settings.env.value, plain)
    ensures |plain| == |i.provider.models| > 0
    ensures var env, models := rows[k].settings.env.value, i.provider.models;
            var url := if rows[k].isCurrent && (forall j :: 0 <= j < k ==> !rows[j].isCurrent) then proxy else None;
            && i.provider.name == names[k] && i.title == rows[k].title && i.viaProxy == url.Some?
            && i.provider.apiKey == ApiKey(env) && i.provider.baseUrl == BaseUrl(env, url)
            && (forall m :: 0 <= m < |models| ==>
                  models[m] == Model(plain[m].id, Shown(rows, k, plain[m].name), ApiKey(env), BaseUrl(env, url)))
            && i.defaultModelId == (if Wanted(env).Some? && (exists m :: 0 <= m < |models| && models[m].id == Wanted(env).value)
                                    then Wanted(env).value else models[0].id)
  {
    hide ApiKey, BaseUrl, Wanted, Offered, ArrayOffers, EnvOffers, DistinctTexts;
    var settings, url, prefix := rows[k].settings, ProxyFor(rows, k, proxy), PrefixFor(rows, k);
    var env := settings.env.value;
    plain :| Offered(settings, env, plain) && |plain| == |i.provider.models|
      && forall m :: 0 <= m < |plain| ==>
           i.provider.models[m] == Dressed(plain[m], ApiKey(env).value, BaseUrl(env, url).value, prefix);
    DefaultIs(i.provider.models, Wanted(env));
    forall m | 0 <= m < |plain|
      ensures Dressed(plain[m], ApiKey(env).value, BaseUrl(env, url).value, prefix).name == Shown(rows, k, plain[m].name)
    {
      assert "" + plain[m].name == plain[m].name;
    }
  }

  lemma DefaultIs(models: seq<Model>, wanted: Option<string>)
    requires models != []
    ensures DefaultOf(models, wanted) ==
              if wanted.Some? && (exists m :: 0 <= m < |models| && models[m].id == wanted.value)
              then wanted.value else models[0].id
  {
    var ids := Ids(models);
    if wanted.Some? {
      if wanted.value in ids {
        var m :| 0 <= m < |ids| && ids[m] == wanted.value;
        assert models[m].id == wanted.value;
      } else {
        forall m | 0 <= m < |models| ensures models[m].id != wanted.value { assert ids[m] in ids; }
      }
    }
  }

  // ----- the merge ----------------------------------------------------------

  /** The providers kept are those not imported before, each as often as it was there and in their order. */
  lemma {:induction false} KeptExactly(providers: seq<Provider>, p: Provider)
    ensures multiset(Retained(providers))[p] ==
              if p.name == "cc-switch" || "cc-switch-" <= p.name then 0 else multiset(providers)[p]
    decreases |providers|
  {
    if providers != [] {
      var head := providers[0];
      KeptExactly(providers[1..], p);
      assert providers == [head] + providers[1..];
      assert Retained([head]) == if IsImported(head.name) then [] else [head] by { assert [head][1..] == []; }
      RetainedConcat([head], providers[1..]);
    }
  }

  /** The default model is replaced exactly when the catalog has one and it is preferred or none is set. */
  lemma DefaultReplacedExactly(default: Option<string>, catalog: Catalog, prefer: bool)
    ensures MergedDefault(default, catalog, prefer) ==
              if catalog.default.Some? && (prefer || default.None? || AllWhitespace(default.value)) then catalog.default
              else default
  {
    hide Trim, AllWhitespace;
    if default.Some? { BlankTrims(default.value); }
  }
}
