/** The design laboratory: a bounded log with the newest entry first, and
    the generate handler, which checks for an API key, asks the model for a
    couture concept and, in autonomous or deep mode, for innovation
    research, and always ends with the generating flag off. The key check,
    both model calls and the clock are inputs. */
module QuantumDesignPage {
  import opened Prelude
  import GeminiService

  // ---------------------------------------------------------------------
  // The log
  // ---------------------------------------------------------------------

  /** The most entries the log holds. */
  const LogCapacity := 16

  /** A log line: the time in brackets, then the message. */
  function Entry(timestamp: string, msg: string): (e: string)
    ensures |e| == |timestamp| + 3 + |msg|
    ensures e[..|timestamp| + 2] == "[" + timestamp + "]"
    ensures e[|timestamp| + 3..] == msg
  {
    "[" + timestamp + "] " + msg
  }

  /** addLog: the new entry first, then at most 15 of the earlier ones. */
  function Push(logs: seq<string>, entry: string): (r: seq<string>)
    ensures 1 <= |r| <= LogCapacity
    ensures r[0] == entry && r[1..] == Take(logs, LogCapacity - 1)
  {
    [entry] + Take(logs, LogCapacity - 1)
  }

  function Reverse<T>(s: seq<T>): (r: seq<T>)
    ensures |r| == |s|
  {
    if s == [] then [] else Reverse(s[1..]) + [s[0]]
  }

  /** Entries pushed one after another. */
  function PushAll(logs: seq<string>, entries: seq<string>): seq<string>
    decreases |entries|
  {
    if entries == [] then logs else PushAll(Push(logs, entries[0]), entries[1..])
  }

  /** Cutting the tail short first changes nothing when enough of it is
      kept. */
  lemma TakeTake<T>(a: seq<T>, b: seq<T>, k: nat, m: nat)
    requires |a| + k >= m
    ensures Take(a + Take(b, k), m) == Take(a + b, m)
  {
    var l := a + Take(b, k);
    var r := a + b;
    assert |Take(l, m)| == |Take(r, m)|;
    forall i | 0 <= i < |Take(l, m)| ensures Take(l, m)[i] == Take(r, m)[i] {
      if i >= |a| {
        assert l[i] == Take(b, k)[i - |a|] == b[i - |a|] == r[i];
      }
    }
  }

  /** A push is a cut of the log with the entry in front. */
  lemma PushIsTake(logs: seq<string>, e: string)
    ensures Push(logs, e) == Take([e] + logs, LogCapacity)
  {
  }

  /** The log always shows the 16 most recent entries, newest first. */
  lemma {:induction false} LogKeepsNewest(logs: seq<string>, entries: seq<string>)
    requires |logs| <= LogCapacity
    ensures PushAll(logs, entries) == Take(Reverse(entries) + logs, LogCapacity)
    ensures |PushAll(logs, entries)| <= LogCapacity
    decreases |entries|
  {
    if entries == [] {
      assert Reverse(entries) + logs == logs;
    } else {
      var e := entries[0];
      var pushed := Push(logs, e);
      LogKeepsNewest(pushed, entries[1..]);
      var rest := Reverse(entries[1..]);
      PushIsTake(logs, e);
      TakeTake(rest, [e] + logs, LogCapacity, LogCapacity);
      calc {
        PushAll(logs, entries);
        PushAll(pushed, entries[1..]);
        Take(rest + pushed, LogCapacity);
        Take(rest + Take([e] + logs, LogCapacity), LogCapacity);
        Take(rest + ([e] + logs), LogCapacity);
        { assert rest + ([e] + logs) == (rest + [e]) + logs; }
        Take(Reverse(entries) + logs, LogCapacity);
      }
    }
  }

  // ---------------------------------------------------------------------
  // The page
  // ---------------------------------------------------------------------

  datatype Quantum = Quantum(
    inspiration: string,
    concept: Option<GeminiService.Object>,
    innovation: Option<GeminiService.Object>,
    isGenerating: bool,
    isAutonomous: bool,
    isDeepReasoning: bool,
    logs: seq<string>)

  const InitialQuantum := Quantum("", None, None, false, false, true, [])

  /** What the AI Studio host offers: whether it can tell if a key is
      selected, whether one is, and whether it can open the key picker. */
  datatype KeyAccess = KeyAccess(canCheck: bool, hasSelectedKey: bool, canSelect: bool)

  /** `hasKey`: a key is assumed when the host cannot tell. */
  predicate HasKey(k: KeyAccess) { !k.canCheck || k.hasSelectedKey }

  /** The generation goes ahead with a key, or when the picker can be
      opened to choose one. */
  predicate MayGenerate(k: KeyAccess) { HasKey(k) || k.canSelect }

  /** `vibeOverride || inspiration`. */
  function Vibe(q: Quantum, vibeOverride: Option<string>): (v: string)
    ensures vibeOverride.Some? && vibeOverride.value != "" ==> v == vibeOverride.value
    ensures vibeOverride.None? || vibeOverride.value == "" ==> v == q.inspiration
  {
    if vibeOverride.Some? && vibeOverride.value != "" then vibeOverride.value else q.inspiration
  }

  /** How a value prints inside a template string. */
  function ValueText(v: GeminiService.Value): string
  {
    match v
    case Str(s) => s
    case StrList(items) => Join(items, ",")
    case OtherValue(json) => json
  }

  /** `${result.name}`: "undefined" when the concept has no name. */
  function NameText(concept: GeminiService.Object): string
  {
    if "name" in concept then ValueText(concept["name"]) else "undefined"
  }

  /** The text of a fatal error: the error's message, or NEURAL_LINK_DROPPED
      when it has none. */
  function FatalText(message: string): (t: string)
    ensures |t| > 13
    ensures t[..13] == "FATAL_ERROR: "
    ensures message != "" ==> t[13..] == message
    ensures message == "" ==> t[13..] == "NEURAL_LINK_DROPPED"
  {
    "FATAL_ERROR: " + (if message != "" then message else "NEURAL_LINK_DROPPED")
  }

  /** What the handler asked of the outside world. */
  datatype Requests = Requests(
    vibe: Option<string>,
    deep: bool,
    askedInnovation: bool,
    reopenedPicker: bool)

  /** handleGenerate. `stamp(k)` is the time of the k-th log entry the call
      writes; `couture` is the concept call's outcome, which is an object
      whenever it succeeds; `innovation` is the research call's outcome,
      None standing for a falsy answer. */
  function Generate(q: Quantum, vibeOverride: Option<string>, key: KeyAccess,
                    couture: GeminiService.Attempt<GeminiService.Object>,
                    innovation: GeminiService.Attempt<Option<GeminiService.Object>>,
                    stamp: nat -> string): (r: (Quantum, Requests))
    ensures !MayGenerate(key) ==>
      r.0 == q.(logs := Push(q.logs, Entry(stamp(0), "ERROR: API_KEY_SELECTION_REQUIRED")))
      && r.1 == Requests(None, false, false, false)
    ensures MayGenerate(key) ==> (r.1.vibe == Some(Vibe(q, vibeOverride)) && r.1.deep == q.isDeepReasoning)
    ensures !r.0.isGenerating || r.0.isGenerating == q.isGenerating
    ensures MayGenerate(key) ==> !r.0.isGenerating
    ensures r.0.concept != q.concept ==> couture.Success? && r.0.concept == Some(couture.value)
    ensures MayGenerate(key) && couture.Success? ==> r.0.concept == Some(couture.value)
    ensures r.1.askedInnovation <==> MayGenerate(key) && couture.Success? && (q.isAutonomous || q.isDeepReasoning)
    ensures r.0.innovation != q.innovation ==> (r.1.askedInnovation && innovation.Success? && innovation.value.Some?
      && r.0.innovation == innovation.value)
    ensures r.1.reopenedPicker ==> MayGenerate(key)
    ensures |q.logs| <= LogCapacity ==> |r.0.logs| <= LogCapacity
    ensures r.0.inspiration == q.inspiration && r.0.isAutonomous == q.isAutonomous
      && r.0.isDeepReasoning == q.isDeepReasoning
  {
    if !MayGenerate(key) then
      (q.(logs := Push(q.logs, Entry(stamp(0), "ERROR: API_KEY_SELECTION_REQUIRED"))), Requests(None, false, false, false))
    else
      var vibe := Vibe(q, vibeOverride);
      var started := q.(isGenerating := true, logs := Push(q.logs, Entry(stamp(0), "INIT_REASONING_CHAIN: BUDGET_32K")));
      match couture
      case Failure(message) =>
        var reopen := Includes(message, "Requested entity was not found.");
        (started.(logs := Push(started.logs, Entry(stamp(1), FatalText(message))), isGenerating := false),
         Requests(Some(vibe), q.isDeepReasoning, false, reopen))
      case Success(concept) =>
        var designed := started.(concept := Some(concept),
          logs := Push(started.logs, Entry(stamp(1), "DESIGN_SYNTHESIS_COMPLETE: " + NameText(concept))));
        if !(q.isAutonomous || q.isDeepReasoning) then
          (designed.(isGenerating := false), Requests(Some(vibe), q.isDeepReasoning, false, false))
        else
          match innovation
          case Failure(message) =>
            var reopen := Includes(message, "Requested entity was not found.");
            (designed.(logs := Push(designed.logs, Entry(stamp(2), FatalText(message))), isGenerating := false),
             Requests(Some(vibe), q.isDeepReasoning, true, reopen))
          case Success(None) =>
            (designed.(isGenerating := false), Requests(Some(vibe), q.isDeepReasoning, true, false))
          case Success(Some(found)) =>
            (designed.(innovation := Some(found), isGenerating := false,
               logs := Push(designed.logs, Entry(stamp(2), "STRATEGIC_RESEARCH_SYNCED"))),
             Requests(Some(vibe), q.isDeepReasoning, true, false))
  }

  /** The couture service answers with an object even when nothing in the
      answer parses, so a successful call always replaces the concept. */
  lemma ServiceConceptAlwaysShown(q: Quantum, key: KeyAccess, parts: seq<GeminiService.Part>,
                                  parse: string -> Option<GeminiService.Object>,
                                  innovation: GeminiService.Attempt<Option<GeminiService.Object>>, stamp: nat -> string)
    requires MayGenerate(key)
    ensures var concept := GeminiService.MergeCouture(parts, parse);
      var r := Generate(q, None, key, GeminiService.Success(concept), innovation, stamp).0;
      r.concept == Some(concept) && "reasoningChain" in r.concept.value && !r.isGenerating
  {
  }

  /** The generate button: shown only outside autonomous mode, and
      disabled while generating or with no inspiration typed. A press where
      the button is absent or disabled does nothing. */
  function PressGenerate(q: Quantum, key: KeyAccess,
                         couture: GeminiService.Attempt<GeminiService.Object>,
                         innovation: GeminiService.Attempt<Option<GeminiService.Object>>,
                         stamp: nat -> string): (r: (Quantum, Requests))
    ensures q.isAutonomous || q.isGenerating || q.inspiration == "" ==> r == (q, Requests(None, false, false, false))
    ensures !q.isAutonomous && !q.isGenerating && q.inspiration != "" && MayGenerate(key) ==> r.1.vibe == Some(q.inspiration)
  {
    if q.isAutonomous || q.isGenerating || q.inspiration == "" then (q, Requests(None, false, false, false))
    else Generate(q, None, key, couture, innovation, stamp)
  }

  /** toggleAutonomous. Switching on logs the connection and runs a first
      generation with INITIAL_EVOLUTION; that run sees the page as it was
      before the switch, so it asks for research only in deep mode.
      Switching off logs the disconnection. */
  function ToggleAutonomous(q: Quantum, key: KeyAccess,
                            couture: GeminiService.Attempt<GeminiService.Object>,
                            innovation: GeminiService.Attempt<Option<GeminiService.Object>>,
                            stamp: nat -> string): (r: (Quantum, Requests))
    ensures r.0.isAutonomous == !q.isAutonomous
    ensures q.isAutonomous ==> r.0 == q.(isAutonomous := false, logs := Push(q.logs, Entry(stamp(0), "AUTONOMOUS_HUB: DISCONNECTED")))
    ensures !q.isAutonomous && MayGenerate(key) ==> (r.1.vibe == Some("INITIAL_EVOLUTION")
      && (r.1.askedInnovation <==> couture.Success? && q.isDeepReasoning))
  {
    if q.isAutonomous then
      (q.(isAutonomous := false, logs := Push(q.logs, Entry(stamp(0), "AUTONOMOUS_HUB: DISCONNECTED"))), Requests(None, false, false, false))
    else
      var connected := q.(logs := Push(q.logs, Entry(stamp(0), "AUTONOMOUS_HUB: CONNECTED")));
      var g := Generate(connected, Some("INITIAL_EVOLUTION"), key, couture, innovation, (k: nat) => stamp(k + 1));
      (g.0.(isAutonomous := true), g.1)
  }

  /** The 45-second timer of autonomous mode: when it fires on an idle
      autonomous page it generates with SELF_ITERATION, asking for research
      every time. */
  function AutonomousTick(q: Quantum, key: KeyAccess,
                          couture: GeminiService.Attempt<GeminiService.Object>,
                          innovation: GeminiService.Attempt<Option<GeminiService.Object>>,
                          stamp: nat -> string): (r: (Quantum, Requests))
    ensures !(q.isAutonomous && !q.isGenerating) ==> r.0 == q && r.1.vibe.None?
    ensures q.isAutonomous && !q.isGenerating && MayGenerate(key) ==> (r.1.vibe == Some("SELF_ITERATION")
      && (r.1.askedInnovation <==> couture.Success?))
  {
    if q.isAutonomous && !q.isGenerating then Generate(q, Some("SELF_ITERATION"), key, couture, innovation, stamp)
    else (q, Requests(None, false, false, false))
  }
}
