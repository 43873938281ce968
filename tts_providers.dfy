/** The text-to-speech providers and the manager that picks among them.
    Whether a provider works is decided once, when it is constructed (a
    library import, a `festival --version` run, an API key); those probes
    are inputs here, and each provider's own synthesis run is a parameter. */
module TtsProviders {
  import opened Results

  /** The four backends, in the manager's priority order. */
  datatype Kind = Coqui | SpeechT5 | OpenAi | Festival

  datatype Voice = Voice(id: string, name: string, language: string)

  /** A constructed provider: its backend and whether it is available. */
  datatype Provider = Provider(kind: Kind, available: bool)

  /** get_provider_name of each backend. */
  function Name(k: Kind): string {
    match k
    case Coqui => "Coqui TTS (Open Source)"
    case SpeechT5 => "Microsoft SpeechT5 (Open Source)"
    case OpenAi => "OpenAI TTS"
    case Festival => "Festival TTS (Open Source)"
  }

  /** No two backends share a name, so a name picks one backend. */
  lemma NamesDistinct(a: Kind, b: Kind)
    requires Name(a) == Name(b)
    ensures a == b
  {
  }

  /** Position in the priority list. */
  function Rank(k: Kind): nat {
    match k
    case Coqui => 0
    case SpeechT5 => 1
    case OpenAi => 2
    case Festival => 3
  }

  /** get_voices of each backend. */
  function Voices(k: Kind): seq<Voice> {
    match k
    case Coqui => [
      Voice("tts_models/en/vctk/vits", "VCTK Multi-Speaker (Indian: p225, p226)", "en-IN"),
      Voice("tts_models/en/ljspeech/tacotron2-DDC", "LJSpeech Tacotron2", "en-US"),
      Voice("tts_models/en/ljspeech/glow-tts", "LJSpeech Glow-TTS", "en-US"),
      Voice("tts_models/multilingual/multi-dataset/your_tts", "YourTTS Multilingual", "multi")]
    case SpeechT5 => [Voice("microsoft/speecht5_tts", "SpeechT5 (General English)", "en-US")]
    case OpenAi => [
      Voice("alloy", "Alloy (Neutral)", "en-US"),
      Voice("echo", "Echo (Deep)", "en-US"),
      Voice("fable", "Fable (Expressive)", "en-US"),
      Voice("onyx", "Onyx (Professional)", "en-US"),
      Voice("nova", "Nova (Clear)", "en-US"),
      Voice("shimmer", "Shimmer (Warm)", "en-US")]
    case Festival => [
      Voice("cmu_indic_hin_ab", "Hindi-English (Indian)", "en-IN"),
      Voice("kal_diphone", "Kal (American English)", "en-US"),
      Voice("cmu_us_awb_arctic_hts", "AWB (American English)", "en-US")]
  }

  /** What each provider's constructor finds out: whether the Coqui and
      SpeechT5 libraries import, the OPENAI_API_KEY value, and the exit
      status of `festival --version` (None when it could not be run). */
  datatype Probes = Probes(coquiImports: bool, speechT5Imports: bool, apiKey: Option<string>,
                           festivalExit: Option<int>)

  /** OpenAITTSProvider: a client is built exactly when the key is set and
      not empty, and the provider is available exactly when there is a
      client. */
  function OpenAiProvider(apiKey: Option<string>): (p: Provider)
    ensures p.kind == OpenAi
    ensures p.available <==> apiKey.Some? && apiKey.value != ""
  {
    var client := apiKey.Some? && apiKey.value != "";
    Provider(OpenAi, client)
  }

  /** The providers TTSManager constructs, in priority order. */
  function AllProviders(probes: Probes): (ps: seq<Provider>)
    ensures |ps| == 4 && forall i :: 0 <= i < 4 ==> Rank(ps[i].kind) == i
  {
    [Provider(Coqui, probes.coquiImports),
     Provider(SpeechT5, probes.speechT5Imports),
     OpenAiProvider(probes.apiKey),
     Provider(Festival, probes.festivalExit == Some(0))]
  }

  /** [p for p in providers if p.is_available()] */
  function Available(ps: seq<Provider>): seq<Provider> {
    if ps == [] then []
    else (if ps[0].available then [ps[0]] else []) + Available(ps[1..])
  }

  /** Strictly in priority order. */
  predicate ByRank(ps: seq<Provider>) {
    forall i, j :: 0 <= i < j < |ps| ==> Rank(ps[i].kind) < Rank(ps[j].kind)
  }

  /** The available providers are exactly the available ones among the
      inputs, and they keep the inputs' order. */
  lemma AvailableExactly(ps: seq<Provider>)
    ensures forall p :: p in Available(ps) <==> p in ps && p.available
    ensures ByRank(ps) ==> ByRank(Available(ps))
  {
    AvailableMembers(ps);
    if ByRank(ps) {
      AvailableByRank(ps);
    }
  }

  lemma {:induction false} AvailableMembers(ps: seq<Provider>)
    ensures forall p :: p in Available(ps) <==> p in ps && p.available
    decreases |ps|
  {
    if ps != [] {
      AvailableMembers(ps[1..]);
      assert ps == [ps[0]] + ps[1..];
    }
  }

  lemma {:induction false} AvailableByRank(ps: seq<Provider>)
    requires ByRank(ps)
    ensures ByRank(Available(ps))
    decreases |ps|
  {
    if ps != [] {
      var rest := Available(ps[1..]);
      assert ByRank(ps[1..]) by {
        forall i, j | 0 <= i < j < |ps| - 1 ensures Rank(ps[1..][i].kind) < Rank(ps[1..][j].kind) {
          assert ps[1..][i] == ps[i + 1] && ps[1..][j] == ps[j + 1];
        }
      }
      AvailableByRank(ps[1..]);
      if ps[0].available {
        AvailableMembers(ps[1..]);
        forall q | q in rest ensures Rank(ps[0].kind) < Rank(q.kind) {
          var k :| 0 <= k < |ps| - 1 && ps[1..][k] == q;
          assert ps[k + 1] == q;
        }
        ConsByRank(ps[0], rest);
      }
    }
  }

  /** A provider ranked before every member of an ordered list can head it. */
  lemma ConsByRank(p: Provider, rest: seq<Provider>)
    requires ByRank(rest)
    requires forall q :: q in rest ==> Rank(p.kind) < Rank(q.kind)
    ensures ByRank([p] + rest)
  {
    var ps := [p] + rest;
    forall i, j | 0 <= i < j < |ps| ensures Rank(ps[i].kind) < Rank(ps[j].kind) {
      assert ps[j] == rest[j - 1];
      if i > 0 {
        assert ps[i] == rest[i - 1];
      }
    }
  }

  /** TTSManager after construction. */
  datatype Manager = Manager(providers: seq<Provider>, availableProviders: seq<Provider>)

  function NewManager(probes: Probes): Manager {
    var ps := AllProviders(probes);
    Manager(ps, Available(ps))
  }

  /** The manager's available providers are the available backends in
      priority order, each at most once. */
  lemma ManagerAvailable(probes: Probes)
    ensures forall p :: p in NewManager(probes).availableProviders <==> p in AllProviders(probes) && p.available
    ensures ByRank(NewManager(probes).availableProviders)
  {
    var ps := AllProviders(probes);
    assert ByRank(ps);
    AvailableExactly(ps);
  }

  /** Whether OpenAI TTS is among the available providers depends on the key
      alone. */
  lemma OpenAiAvailableIffKey(probes: Probes)
    ensures (exists p :: p in NewManager(probes).availableProviders && p.kind == OpenAi)
      <==> probes.apiKey.Some? && probes.apiKey.value != ""
  {
    var ps := AllProviders(probes);
    AvailableExactly(ps);
    if probes.apiKey.Some? && probes.apiKey.value != "" {
      assert ps[2] in NewManager(probes).availableProviders;
    }
  }

  /** Provider i is the first in the list with that name. */
  predicate FirstNamed(ps: seq<Provider>, name: string, i: int) {
    0 <= i < |ps| && Name(ps[i].kind) == name && forall j :: 0 <= j < i ==> Name(ps[j].kind) != name
  }

  /** get_provider_by_name: the first available provider with that name. */
  method GetProviderByName(m: Manager, name: string) returns (r: Option<Provider>)
    ensures r.Some? ==>
      exists i :: FirstNamed(m.availableProviders, name, i) && m.availableProviders[i] == r.value
    ensures r.None? <==> forall j :: 0 <= j < |m.availableProviders| ==> Name(m.availableProviders[j].kind) != name
  {
    var i := 0;
    while i < |m.availableProviders|
      invariant i <= |m.availableProviders|
      invariant forall j :: 0 <= j < i ==> Name(m.availableProviders[j].kind) != name
    {
      var provider := m.availableProviders[i];
      if Name(provider.kind) == name {
        return Some(provider);
      }
      i := i + 1;
    }
    return None;
  }

  /** get_default_provider: the first available provider, if any. */
  function DefaultProvider(m: Manager): (r: Option<Provider>)
    ensures r.None? <==> m.availableProviders == []
    ensures r.Some? ==> r.value == m.availableProviders[0]
  {
    if m.availableProviders != [] then Some(m.availableProviders[0]) else None
  }

  /** The default provider of a manager is the available backend with the
      highest priority. */
  lemma DefaultIsBest(probes: Probes)
    ensures var d := DefaultProvider(NewManager(probes));
      && (d.None? <==> forall p :: p in AllProviders(probes) ==> !p.available)
      && (d.Some? ==> d.value.available && forall p :: p in AllProviders(probes) && p.available ==>
            Rank(d.value.kind) <= Rank(p.kind))
  {
    var av := NewManager(probes).availableProviders;
    ManagerAvailable(probes);
    if av != [] {
      forall p | p in AllProviders(probes) && p.available ensures Rank(av[0].kind) <= Rank(p.kind) {
        assert p in av;
      }
    }
  }

  /** The voices map holds an entry for each provider of ps, under its
      name. */
  ghost predicate VoicesOf(ps: seq<Provider>, voices: map<string, seq<Voice>>) {
    && (forall n :: n in voices <==> exists p :: p in ps && Name(p.kind) == n)
    && (forall p :: p in ps ==> Name(p.kind) in voices && voices[Name(p.kind)] == Voices(p.kind))
  }

  /** Adding the entry of one more provider extends the map to it. */
  lemma VoicesStep(ps: seq<Provider>, p: Provider, voices: map<string, seq<Voice>>)
    requires VoicesOf(ps, voices)
    ensures VoicesOf(ps + [p], voices[Name(p.kind) := Voices(p.kind)])
  {
    var next := voices[Name(p.kind) := Voices(p.kind)];
    forall q | q in ps + [p] ensures Name(q.kind) in next && next[Name(q.kind)] == Voices(q.kind) {
      if Name(q.kind) == Name(p.kind) {
        NamesDistinct(q.kind, p.kind);
      } else {
        assert q in ps;
      }
    }
    forall n | n in next ensures exists q :: q in ps + [p] && Name(q.kind) == n {
      if n != Name(p.kind) {
        var q :| q in ps && Name(q.kind) == n;
        assert q in ps + [p];
      }
    }
  }

  /** get_all_voices: one entry per available provider, under its name. */
  method GetAllVoices(m: Manager) returns (voices: map<string, seq<Voice>>)
    ensures forall n :: n in voices <==> exists p :: p in m.availableProviders && Name(p.kind) == n
    ensures forall p :: p in m.availableProviders ==> voices[Name(p.kind)] == Voices(p.kind)
  {
    voices := map[];
    var i := 0;
    while i < |m.availableProviders|
      invariant i <= |m.availableProviders|
      invariant VoicesOf(m.availableProviders[..i], voices)
    {
      var provider := m.availableProviders[i];
      assert m.availableProviders[..i + 1] == m.availableProviders[..i] + [provider];
      VoicesStep(m.availableProviders[..i], provider, voices);
      voices := voices[Name(provider.kind) := Voices(provider.kind)];
      i := i + 1;
    }
    assert m.availableProviders[..i] == m.availableProviders;
  }

  /** The outcome of a synthesis request: whether it succeeded and which
      provider's synthesize ran, if any. */
  datatype Synthesis = Synthesis(ok: bool, ran: Option<Kind>)

  /** A provider's synthesize: every backend returns False at once when it
      is not available; otherwise the backend's own run decides. */
  function Synthesize(p: Provider, run: Kind -> bool): (r: Synthesis)
    ensures r.ran == Some(p.kind)
    ensures r.ok ==> p.available
    ensures p.available ==> r.ok == run(p.kind)
  {
    Synthesis(p.available && run(p.kind), Some(p.kind))
  }

  /** synthesize_with_provider: False without running anything when no
      available provider has that name. */
  method SynthesizeWithProvider(m: Manager, name: string, run: Kind -> bool) returns (r: Synthesis)
    ensures (forall p :: p in m.availableProviders ==> Name(p.kind) != name) ==> r == Synthesis(false, None)
    ensures (exists p :: p in m.availableProviders && Name(p.kind) == name) ==>
      exists i :: FirstNamed(m.availableProviders, name, i) && r == Synthesize(m.availableProviders[i], run)
  {
    var provider := GetProviderByName(m, name);
    if provider.None? {
      return Synthesis(false, None);
    }
    r := Synthesize(provider.value, run);
  }

  /** synthesize_with_best_provider: False without running anything when
      no provider is available; otherwise the default provider runs. */
  function SynthesizeWithBest(m: Manager, run: Kind -> bool): (r: Synthesis)
    ensures m.availableProviders == [] ==> r == Synthesis(false, None)
    ensures m.availableProviders != [] ==> r.ran == Some(m.availableProviders[0].kind)
    ensures m.availableProviders != [] ==> r == Synthesize(m.availableProviders[0], run)
  {
    match DefaultProvider(m)
    case None => Synthesis(false, None)
    case Some(p) => Synthesize(p, run)
  }
}
