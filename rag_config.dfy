/** Model configuration of the RAG system: the context window guessed from
    the model name, the token budget left for document content, the
    fallback model list read from the environment and the order in which
    the summariser tries models. */
module RagConfig {
  import opened PyStr

  // ---------------------------------------------------------------- context window

  /** Name fragments of the models with a 128k context window. */
  const LongContextKeys: seq<string> := ["gpt-4o", "gpt-4-turbo", "gpt-4.1", "gpt-4.1-mini", "4o-mini", "o1", "o3"]

  /** any(k in name for k in keys) */
  predicate MentionsAny(name: string, keys: seq<string>) {
    exists i :: 0 <= i < |keys| && Contains(name, keys[i])
  }

  /** _infer_context_window: the lower-cased name is checked against the
      128k fragments, then 32k, then 16k or 3.5; everything else, the
      gpt-4 family included, gets 8192. */
  function InferContextWindow(model: string): (r: nat)
    ensures r == 128000 || r == 32768 || r == 16385 || r == 8192
    ensures var name := Lower(model);
      && (r == 128000 <==> MentionsAny(name, LongContextKeys))
      && (r == 32768 <==> !MentionsAny(name, LongContextKeys) && Contains(name, "32k"))
      && (r == 16385 <==> !MentionsAny(name, LongContextKeys) && !Contains(name, "32k")
                          && (Contains(name, "16k") || Contains(name, "3.5")))
  {
    var name := Lower(model);
    if MentionsAny(name, LongContextKeys) then 128000
    else if Contains(name, "32k") then 32768
    else if Contains(name, "16k") || Contains(name, "3.5") then 16385
    else if Contains(name, "gpt-4") then 8192
    else 8192
  }

  lemma LowerIdempotent(s: string)
    ensures Lower(Lower(s)) == Lower(s)
  {
    assert forall i :: 0 <= i < |s| ==> LowerChar(LowerChar(s[i])) == LowerChar(s[i]);
  }

  /** The classification ignores letter case. */
  lemma ContextWindowIgnoresCase(model: string)
    ensures InferContextWindow(Lower(model)) == InferContextWindow(model)
  {
    LowerIdempotent(model);
  }

  /** An empty model name gets the default window. */
  lemma EmptyModelWindow()
    ensures InferContextWindow("") == 8192
  {
    var name := Lower("");
    assert name == "";
    forall i | 0 <= i < |LongContextKeys| ensures !Contains(name, LongContextKeys[i]) {
      NothingInEmpty(LongContextKeys[i]);
    }
    NothingInEmpty("32k");
    NothingInEmpty("16k");
    NothingInEmpty("3.5");
  }

  /** The default model gpt-4o-mini has the 128k window. */
  lemma DefaultModelWindow()
    ensures InferContextWindow("gpt-4o-mini") == 128000
  {
    var name := Lower("gpt-4o-mini");
    assert name == "gpt-4o-mini";
    assert StartsWith(name, LongContextKeys[0]);
  }

  // ---------------------------------------------------------------- content budget

  /** Tokens kept back for the prompts and for the response. */
  function ReservedTokens(maxTokens: int): int {
    1000 + maxTokens
  }

  /** max_content_tokens: what remains of the window after the reserve,
      but never less than 1024. */
  function MaxContentTokens(contextWindow: int, maxTokens: int): (r: int)
    ensures r >= 1024 && r >= contextWindow - ReservedTokens(maxTokens)
    ensures r == 1024 || r == contextWindow - ReservedTokens(maxTokens)
  {
    var left := contextWindow - ReservedTokens(maxTokens);
    if left > 1024 then left else 1024
  }

  /** With the default model and response size, 125000 tokens are left for
      the content. */
  lemma DefaultContentBudget()
    ensures MaxContentTokens(InferContextWindow("gpt-4o-mini"), 2000) == 125000
  {
    DefaultModelWindow();
  }

  // ---------------------------------------------------------------- fallback models

  const DefaultFallbacks: seq<string> := ["gpt-4o-mini", "gpt-4o", "gpt-4-turbo", "gpt-4", "gpt-3.5-turbo-0125"]

  /** A model name as the parser delivers it: not empty, no surrounding
      whitespace, no comma. */
  predicate CleanName(m: string) {
    m != [] && Strip(m) == m && ',' !in m
  }

  /** Each field stripped: [m.strip() for m in fields]. */
  function StripAll(fields: seq<string>): (r: seq<string>)
    ensures |r| == |fields|
    ensures forall i :: 0 <= i < |r| ==> r[i] == Strip(fields[i])
  {
    seq(|fields|, i requires 0 <= i < |fields| => Strip(fields[i]))
  }

  /** A stripped comma-free field that is not empty is a clean name. */
  lemma CleanStrip(f: string)
    requires ',' !in f
    ensures Strip(f) != [] ==> CleanName(Strip(f))
  {
    StripInside(f, ',');
    StripIdempotent(f);
  }

  /** The entries that are not empty, in order. */
  function NonEmpty(xs: seq<string>): (r: seq<string>)
    ensures |r| <= |xs|
    ensures forall i :: 0 <= i < |r| ==> r[i] != [] && r[i] in xs
    ensures r == [] <==> forall i :: 0 <= i < |xs| ==> xs[i] == []
  {
    if xs == [] then []
    else
      var init := xs[..|xs| - 1];
      assert forall i :: 0 <= i < |init| ==> init[i] == xs[i];
      NonEmpty(init) + (if xs[|xs| - 1] != [] then [xs[|xs| - 1]] else [])
  }

  /** The positions of the entries that are not empty, in increasing order. */
  function KeptIndices(xs: seq<string>): (idx: seq<nat>)
    ensures forall k :: 0 <= k < |idx| ==> idx[k] < |xs| && xs[idx[k]] != []
    ensures forall k, l :: 0 <= k < l < |idx| ==> idx[k] < idx[l]
    ensures forall j :: 0 <= j < |xs| && xs[j] != [] ==> j in idx
  {
    if xs == [] then []
    else
      var init := xs[..|xs| - 1];
      var rest := KeptIndices(init);
      assert forall i :: 0 <= i < |init| ==> init[i] == xs[i];
      if xs[|xs| - 1] != [] then rest + [|xs| - 1] else rest
  }

  /** The k-th kept entry is the entry at the k-th kept position. */
  lemma {:induction false} NonEmptyKept(xs: seq<string>)
    ensures var r := NonEmpty(xs); var idx := KeptIndices(xs);
      |r| == |idx| && forall k :: 0 <= k < |r| ==> r[k] == xs[idx[k]]
  {
    if xs != [] {
      var init := xs[..|xs| - 1];
      var last := xs[|xs| - 1];
      NonEmptyKept(init);
      var r0, i0 := NonEmpty(init), KeptIndices(init);
      var r, idx := NonEmpty(xs), KeptIndices(xs);
      if last != [] {
        assert r == r0 + [last] && idx == i0 + [|xs| - 1];
      } else {
        assert r == r0 && idx == i0;
      }
      forall k | 0 <= k < |r| ensures r[k] == xs[idx[k]] {
        if k < |r0| {
          assert r[k] == r0[k] == init[i0[k]];
          assert idx[k] == i0[k];
        }
      }
    }
  }

  /** An entry is kept exactly when it occurs and is not empty. */
  lemma NonEmptyMembers(xs: seq<string>)
    ensures forall m :: m in NonEmpty(xs) <==> m != [] && m in xs
  {
    var r, idx := NonEmpty(xs), KeptIndices(xs);
    NonEmptyKept(xs);
    forall m | m != [] && m in xs ensures m in r {
      var j :| 0 <= j < |xs| && xs[j] == m;
      var k :| 0 <= k < |idx| && idx[k] == j;
      assert r[k] == m;
    }
  }

  /** [m.strip() for m in fields if m.strip()] */
  function StrippedNames(fields: seq<string>): (r: seq<string>)
    requires forall i :: 0 <= i < |fields| ==> ',' !in fields[i]
    ensures |r| <= |fields|
    ensures forall i :: 0 <= i < |r| ==> CleanName(r[i])
    ensures r == [] <==> forall i :: 0 <= i < |fields| ==> Strip(fields[i]) == []
  {
    NamesClean(fields);
    NamesEmpty(fields);
    NonEmpty(StripAll(fields))
  }

  lemma NamesEmpty(fields: seq<string>)
    ensures NonEmpty(StripAll(fields)) == [] <==> forall i :: 0 <= i < |fields| ==> Strip(fields[i]) == []
  {
    var stripped := StripAll(fields);
    assert NonEmpty(stripped) == [] <==> forall i :: 0 <= i < |stripped| ==> stripped[i] == [];
  }

  lemma NamesClean(fields: seq<string>)
    requires forall i :: 0 <= i < |fields| ==> ',' !in fields[i]
    ensures var r := NonEmpty(StripAll(fields)); forall i :: 0 <= i < |r| ==> CleanName(r[i])
  {
    var stripped := StripAll(fields);
    var r := NonEmpty(stripped);
    forall i | 0 <= i < |r| ensures CleanName(r[i]) {
      var j :| 0 <= j < |stripped| && stripped[j] == r[i];
      CleanStrip(fields[j]);
    }
  }

  /** The parsed names are the stripped non-blank fields, in field order:
      the k-th name is the stripped field at the k-th non-blank position. */
  lemma StrippedNamesKept(fields: seq<string>)
    requires forall i :: 0 <= i < |fields| ==> ',' !in fields[i]
    ensures var r := StrippedNames(fields); var idx := KeptIndices(StripAll(fields));
      && |r| == |idx|
      && (forall k :: 0 <= k < |r| ==> r[k] == Strip(fields[idx[k]]))
      && (forall j :: 0 <= j < |fields| && Strip(fields[j]) != [] ==> j in idx)
  {
    NonEmptyKept(StripAll(fields));
  }

  /** A text is a parsed name exactly when it is some field's non-empty
      strip. */
  lemma StrippedNamesMembers(fields: seq<string>)
    requires forall i :: 0 <= i < |fields| ==> ',' !in fields[i]
    ensures forall m :: m in StrippedNames(fields) <==>
      exists i :: 0 <= i < |fields| && m == Strip(fields[i]) && m != []
  {
    var stripped := StripAll(fields);
    NonEmptyMembers(stripped);
    forall m ensures m in stripped <==> exists i :: 0 <= i < |fields| && m == Strip(fields[i]) {
      if m in stripped {
        var i :| 0 <= i < |stripped| && stripped[i] == m;
      }
    }
  }

  /** The fallback list: the comma-separated, stripped, non-empty entries of
      the environment value, or the default list when there are none. */
  function ParseFallbacks(env: string): (r: seq<string>)
    ensures r != []
    ensures forall i :: 0 <= i < |r| ==> CleanName(r[i])
    ensures (forall f :: f in SplitOn(env, ',') ==> Strip(f) == []) ==> r == DefaultFallbacks
    ensures (exists f :: f in SplitOn(env, ',') && Strip(f) != []) ==> r == StrippedNames(SplitOn(env, ','))
  {
    var fields := SplitOn(env, ',');
    assert (forall f :: f in fields ==> Strip(f) == [])
       <==> (forall i :: 0 <= i < |fields| ==> Strip(fields[i]) == []);
    var named := StrippedNames(SplitOn(env, ','));
    if named != [] then named
    else
      DefaultFallbacksClean();
      DefaultFallbacks
  }

  lemma DefaultFallbacksClean()
    ensures forall i :: 0 <= i < |DefaultFallbacks| ==> CleanName(DefaultFallbacks[i])
  {
    forall i | 0 <= i < |DefaultFallbacks| ensures CleanName(DefaultFallbacks[i]) {
      var m := DefaultFallbacks[i];
      assert !IsSpace(m[0]) && !IsSpace(m[|m| - 1]);
      StripBorders(m);
    }
  }

  lemma StrippedNamesOfClean(names: seq<string>)
    requires forall i :: 0 <= i < |names| ==> CleanName(names[i])
    requires forall i :: 0 <= i < |names| ==> ',' !in names[i]
    ensures StrippedNames(names) == names
  {
    StrippedNamesKept(names);
    var idx := KeptIndices(StripAll(names));
    KeptAll(StripAll(names));
  }

  /** With no empty entry every position is kept. */
  lemma {:induction false} KeptAll(xs: seq<string>)
    requires forall i :: 0 <= i < |xs| ==> xs[i] != []
    ensures KeptIndices(xs) == seq(|xs|, i => i)
  {
    if xs != [] {
      var init := xs[..|xs| - 1];
      KeptAll(init);
    }
  }

  /** A comma-joined list of clean names parses back to itself. */
  lemma ParseFallbacksOfJoin(names: seq<string>)
    requires names != []
    requires forall i :: 0 <= i < |names| ==> CleanName(names[i])
    ensures ParseFallbacks(JoinWith(",", names)) == names
  {
    NamesOfJoin(names);
  }

  lemma NamesOfJoin(names: seq<string>)
    requires forall i :: 0 <= i < |names| ==> CleanName(names[i])
    requires names != []
    ensures StrippedNames(SplitOn(JoinWith(",", names), ',')) == names
  {
    forall i | 0 <= i < |names| ensures ',' !in names[i] {
      assert CleanName(names[i]);
    }
    SplitOfJoin(names, ',');
    StrippedNamesOfClean(names);
  }

  /** An unset (empty) variable gives the default list. */
  lemma ParseFallbacksOfEmpty()
    ensures ParseFallbacks("") == DefaultFallbacks
  {
    assert SplitOn("", ',') == [""];
    assert Strip("") == "";
  }

  // ---------------------------------------------------------------- model order

  /** The names of xs that are not empty, each at its first occurrence. */
  function FirstOccurrences(xs: seq<string>): (r: seq<string>)
  {
    if xs == [] then []
    else
      var before := FirstOccurrences(xs[..|xs| - 1]);
      var m := xs[|xs| - 1];
      if m != [] && m !in before then before + [m] else before
  }

  predicate Distinct<T(==)>(xs: seq<T>) {
    forall i, j :: 0 <= i < j < |xs| ==> xs[i] != xs[j]
  }

  /** Index of the first occurrence of x in xs. */
  function IndexOf<T(==)>(xs: seq<T>, x: T): (i: nat)
    requires x in xs
    ensures i < |xs| && xs[i] == x && x !in xs[..i]
  {
    if xs[0] == x then 0 else 1 + IndexOf(xs[1..], x)
  }

  /** The kept names are distinct and are exactly the non-empty names of
      xs. */
  lemma {:induction false} FirstOccurrencesMembers(xs: seq<string>)
    ensures Distinct(FirstOccurrences(xs))
    ensures forall m :: m in FirstOccurrences(xs) <==> m in xs && m != []
  {
    if xs != [] {
      var init := xs[..|xs| - 1];
      FirstOccurrencesMembers(init);
      assert xs == init + [xs[|xs| - 1]];
    }
  }

  /** Extending the candidates only extends the kept list. */
  lemma {:induction false} FirstOccurrencesPrefix(xs: seq<string>, ys: seq<string>)
    ensures FirstOccurrences(xs) <= FirstOccurrences(xs + ys)
    decreases |ys|
  {
    if ys != [] {
      var init := ys[..|ys| - 1];
      FirstOccurrencesPrefix(xs, init);
      var all := xs + ys;
      assert all[..|all| - 1] == xs + init;
      var before := FirstOccurrences(xs + init);
      assert FirstOccurrences(all) == before || FirstOccurrences(all) == before + [all[|all| - 1]];
      assert FirstOccurrences(xs) <= before <= FirstOccurrences(all);
    } else {
      assert xs + ys == xs;
    }
  }

  /** Every name of r occurs in xs, and r lists them in the order of their
      first occurrences in xs. */
  predicate InFirstOrder(r: seq<string>, xs: seq<string>) {
    forall i, j :: 0 <= i < j < |r| ==> r[i] in xs && r[j] in xs && IndexOf(xs, r[i]) < IndexOf(xs, r[j])
  }

  /** The kept names appear in the order of their first occurrences. */
  lemma {:induction false} FirstOccurrencesOrder(xs: seq<string>)
    ensures InFirstOrder(FirstOccurrences(xs), xs)
  {
    var r := FirstOccurrences(xs);
    FirstOccurrencesMembers(xs);
    if xs != [] {
      var init := xs[..|xs| - 1];
      var m := xs[|xs| - 1];
      var before := FirstOccurrences(init);
      FirstOccurrencesOrder(init);
      FirstOccurrencesMembers(init);
      assert xs == init + [m];
      forall x | x in init ensures IndexOf(xs, x) == IndexOf(init, x) {
        IndexOfPrefix(init, [m], x);
      }
      if m != [] && m !in before {
        assert m !in init;
        assert IndexOf(xs, m) == |init| by {
          assert xs[..|init|] == init;
        }
        forall i | 0 <= i < |before| ensures IndexOf(xs, before[i]) < |init| {
          assert before[i] in init;
        }
        assert r == before + [m];
        forall i, j | 0 <= i < j < |r|
          ensures r[i] in xs && r[j] in xs && IndexOf(xs, r[i]) < IndexOf(xs, r[j])
        {
          if j < |before| {
            assert r[i] == before[i] && r[j] == before[j];
          } else {
            assert r[i] == before[i] && r[j] == m;
          }
        }
      } else {
        assert r == before;
        forall i, j | 0 <= i < j < |r|
          ensures r[i] in xs && r[j] in xs && IndexOf(xs, r[i]) < IndexOf(xs, r[j])
        {
          assert r[i] == before[i] && r[j] == before[j];
          assert IndexOf(init, before[i]) < IndexOf(init, before[j]);
        }
      }
    }
  }

  lemma {:induction false} IndexOfPrefix<T>(xs: seq<T>, ys: seq<T>, x: T)
    requires x in xs
    ensures IndexOf(xs + ys, x) == IndexOf(xs, x)
  {
    if xs[0] != x {
      assert (xs + ys)[1..] == xs[1..] + ys;
      IndexOfPrefix(xs[1..], ys, x);
    }
  }

  /** Without empty or repeated names nothing is dropped. */
  lemma {:induction false} FirstOccurrencesOfDistinct(xs: seq<string>)
    requires Distinct(xs) && forall i :: 0 <= i < |xs| ==> xs[i] != []
    ensures FirstOccurrences(xs) == xs
  {
    if xs != [] {
      var init := xs[..|xs| - 1];
      FirstOccurrencesOfDistinct(init);
      assert xs == init + [xs[|xs| - 1]];
    }
  }

  /** The ordered_models loop of _generate_single_summary: the configured
      model, then the fallbacks, skipping empty names and names already
      tried. */
  method OrderModels(primary: string, fallbacks: seq<string>) returns (ordered: seq<string>)
    ensures ordered == FirstOccurrences([primary] + fallbacks)
    ensures Distinct(ordered)
    ensures forall m :: m in ordered <==> (m == primary || m in fallbacks) && m != []
    ensures primary != [] ==> ordered != [] && ordered[0] == primary
  {
    var candidates := [primary] + fallbacks;
    var tried: seq<string> := [];
    ordered := [];
    for i := 0 to |candidates|
      invariant tried == ordered == FirstOccurrences(candidates[..i])
    {
      var m := candidates[i];
      assert candidates[..i + 1][..i] == candidates[..i];
      if m != [] && m !in tried {
        ordered := ordered + [m];
        tried := tried + [m];
      }
    }
    assert candidates[..|candidates|] == candidates;
    FirstOccurrencesMembers(candidates);
    if primary != [] {
      FirstOccurrencesPrefix([primary], fallbacks);
      assert FirstOccurrences([primary]) == [primary] by {
        assert [primary][..0] == [];
      }
    }
  }
}
