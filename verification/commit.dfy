/**
 * The OK and Cancel buttons. OK first stages the variant colours, then
 * writes the whole ledger to the store and emits, in order, the side
 * effects the staged keys and dirty flags call for; Cancel writes nothing.
 */
module Commit {
  import opened Wrappers
  import opened Ledger
  import opened PrefKeys
  import opened JavaInts
  import opened JavaStrings
  import opened Fields

  /** Side effects of a successful OK, in the order they happen. */
  datatype Event =
    | ClearProbeMappings
    | HaltListener
    | StartListener(port: int)
    | ResetOverlayTracks
    | UpdateProxySettings
    | MoveIgvDirectory(target: string)
    | MoveCramCache(target: string)
    | UpdateTooltips
    | ShowGoogleMenu(enabled: bool)
    | SaveGoogleOption(save: bool)
    | Refresh

  datatype Color = Rgb(red: int, green: int, blue: int)

  /** `getAsColor` on a stored text and `ColorUtilities.colorToString`, supplied by the caller. */
  datatype ColorCodec = ColorCodec(parse: Value -> Option<Color>, format: Color -> Value)

  /** The variant colour choosers and the allele-frequency radio button. */
  datatype VcfChoice = VcfChoice(
    homRef: Color, hetVar: Color, homVar: Color, noCall: Color, afRef: Color, afVar: Color,
    alleleFreq: bool)


  /** The colour keys in the order OK tests them. */
  const ColorOrder: seq<Key> := [HomRefColor, HetVarColor, HomVarColor, NoCallColor, AfRefColor, AfVarColor]
  const ColorKeys: set<Key> := set k | k in ColorOrder
  const VcfKeys: set<Key> := ColorKeys + {VariantColorByAlleleFreq}

  /** The keys OK reads besides the variant settings are not variant settings. */
  lemma CommitKeysAreNotVcfKeys()
    ensures PortEnabled !in VcfKeys && PortNumber !in VcfKeys && ProbeMapping !in VcfKeys
    ensures EnableGoogleMenu !in VcfKeys && SaveGoogleCredentials !in VcfKeys && UseProxy !in VcfKeys
  {
  }

  /** The colour a chooser shows for each colour key. */
  function Chosen(choice: VcfChoice, k: Key): Color
    requires k in ColorKeys
  {
    if k == HomRefColor then choice.homRef
    else if k == HetVarColor then choice.hetVar
    else if k == HomVarColor then choice.homVar
    else if k == NoCallColor then choice.noCall
    else if k == AfRefColor then choice.afRef
    else choice.afVar
  }

  /** The stored colour for a key; a missing key reads as no colour. */
  function StoredColor(store: Store, k: Key, codec: ColorCodec): Option<Color> {
    match Get(store, k)
    case None => None
    case Some(v) => codec.parse(v)
  }

  /**
   * Whether OK stages a colour key. Every key is tested by comparing the
   * home-reference chooser, not the key's own chooser, with the key's
   * stored colour.
   */
  predicate ColorTested(store: Store, choice: VcfChoice, codec: ColorCodec, k: Key) {
    StoredColor(store, k, codec) != Some(choice.homRef)
  }


  /** Test and stage each listed colour key in turn. */
  function StageColors(store: Store, ledger: Staged, choice: VcfChoice, codec: ColorCodec, keys: seq<Key>): (r: Staged)
    requires forall i :: 0 <= i < |keys| ==> keys[i] in ColorKeys
    ensures forall k :: k !in keys ==> (k in r <==> k in ledger) && (k in r ==> r[k] == ledger[k])
    ensures ledger.Keys <= r.Keys
    ensures Pending(store, ledger) ==> Pending(store, r)
    decreases |keys|
  {
    if |keys| == 0 then ledger
    else
      var k := keys[0];
      var next := if ColorTested(store, choice, codec, k) then Put(store, ledger, k, Some(codec.format(Chosen(choice, k)))) else ledger;
      StageColors(store, next, choice, codec, keys[1..])
  }

  /**
   * A listed colour key whose test passes ends up staged with its own
   * chooser's printed colour (unless that is the stored text); a listed key
   * whose test fails keeps its ledger entry.
   */
  lemma {:induction false} StageColorsDecides(store: Store, ledger: Staged, choice: VcfChoice, codec: ColorCodec, keys: seq<Key>)
    requires forall i :: 0 <= i < |keys| ==> keys[i] in ColorKeys
    ensures var r := StageColors(store, ledger, choice, codec, keys);
            forall k :: k in keys && ColorTested(store, choice, codec, k)
                        && Get(store, k) != Some(codec.format(Chosen(choice, k)))
                        ==> k in r && r[k] == Some(codec.format(Chosen(choice, k)))
    ensures var r := StageColors(store, ledger, choice, codec, keys);
            forall k :: k in keys && !ColorTested(store, choice, codec, k)
                        ==> (k in r <==> k in ledger) && (k in r ==> r[k] == ledger[k])
    decreases |keys|
  {
    if |keys| > 0 {
      var k := keys[0];
      var next := if ColorTested(store, choice, codec, k) then Put(store, ledger, k, Some(codec.format(Chosen(choice, k)))) else ledger;
      StageColorsDecides(store, next, choice, codec, keys[1..]);
      assert forall j :: j in keys ==> j == k || j in keys[1..];
    }
  }

  /**
   * Stage the variant colours and the colour-by-allele-frequency flag. A
   * colour key whose test passes is staged with the printed colour of its
   * own chooser; the flag is staged when the radio button differs from the
   * stored flag; nothing else in the ledger changes.
   */
  function CheckVcfColors(store: Store, ledger: Staged, choice: VcfChoice, codec: ColorCodec): (r: Staged)
    ensures forall k :: k !in VcfKeys ==> (k in r <==> k in ledger)
    ensures forall k :: k !in VcfKeys && k in r ==> r[k] == ledger[k]
    ensures ledger.Keys <= r.Keys
    ensures Pending(store, ledger) ==> Pending(store, r)
    ensures forall k :: k in ColorKeys && ColorTested(store, choice, codec, k)
                        && Get(store, k) != Some(codec.format(Chosen(choice, k)))
                        ==> k in r && r[k] == Some(codec.format(Chosen(choice, k)))
    ensures forall k :: k in ColorKeys && !ColorTested(store, choice, codec, k)
                        ==> (k in r <==> k in ledger) && (k in r ==> r[k] == ledger[k])
    ensures choice.alleleFreq != ParseBoolean(Get(store, VariantColorByAlleleFreq))
            ==> VariantColorByAlleleFreq in r && r[VariantColorByAlleleFreq] == Some(BoolText(choice.alleleFreq))
    ensures choice.alleleFreq == ParseBoolean(Get(store, VariantColorByAlleleFreq))
            ==> (VariantColorByAlleleFreq in r <==> VariantColorByAlleleFreq in ledger)
  {
    assert VariantColorByAlleleFreq !in ColorKeys;
    StageColorsDecides(store, ledger, choice, codec, ColorOrder);
    StageFlag(store, StageColors(store, ledger, choice, codec, ColorOrder), choice.alleleFreq)
  }

  /** Stage the colour-by-allele-frequency flag when the radio button differs from the stored flag. */
  function StageFlag(store: Store, ledger: Staged, alleleFreq: bool): (r: Staged)
    ensures forall k :: k != VariantColorByAlleleFreq ==> (k in r <==> k in ledger) && (k in r ==> r[k] == ledger[k])
    ensures ledger.Keys <= r.Keys
    ensures Pending(store, ledger) ==> Pending(store, r)
    ensures alleleFreq != ParseBoolean(Get(store, VariantColorByAlleleFreq))
            ==> VariantColorByAlleleFreq in r && r[VariantColorByAlleleFreq] == Some(BoolText(alleleFreq))
    ensures alleleFreq == ParseBoolean(Get(store, VariantColorByAlleleFreq)) ==> r == ledger
  {
    BoolTextRoundTrip(alleleFreq);
    if alleleFreq != ParseBoolean(Get(store, VariantColorByAlleleFreq)) then
      Put(store, ledger, VariantColorByAlleleFreq, Some(BoolText(alleleFreq)))
    else ledger
  }

  /** Widget state OK reads besides the ledger. */
  datatype OkInputs = OkInputs(vcf: VcfChoice, portBoxTicked: bool, selectedTab: nat)

  /** What OK does to the batch command listener. */
  datatype ListenerAction = KeepListener | HaltOnly | Restart(port: int)

  /** The side effects of a completed OK, one field per effect. */
  datatype Effects = Effects(
    clearProbeMappings: bool,
    listener: ListenerAction,
    resetOverlays: bool,
    updateProxy: bool,
    moveIgvDirectoryTo: Option<string>,
    moveCramCacheTo: Option<string>,
    updateTooltips: bool,
    googleMenu: Option<bool>,
    saveGoogleCredentials: Option<bool>)

  datatype Outcome =
      /** Invalid input: nothing written, the dialog stays open. */
    | StaysOpen(dialog: Dialog)
      /** Committed and closed; `lastSelectedTab` is remembered for the next dialog. */
    | Closed(dialog: Dialog, effects: Effects, lastSelectedTab: nat)
      /**
       * Parsing the listener port threw after the store had been written and
       * the listener halted; the probe mappings were cleared first if staged.
       */
    | Failed(dialog: Dialog, clearedProbeMappings: bool, lastSelectedTab: nat)
    | Canceled(dialog: Dialog)

  predicate PortStaged(ledger: Staged) {
    PortEnabled in ledger || PortNumber in ledger
  }

  /** `Integer.parseInt(ledger.get(PORT_NUMBER))`, with a missing or null entry failing. */
  function StagedPort(ledger: Staged): Option<int> {
    if PortNumber in ledger && ledger[PortNumber].Some? then ParseInt(ledger[PortNumber].value) else None
  }

  /** `Boolean.valueOf(ledger.get(k))` when `k` is staged. */
  function StagedFlag(ledger: Staged, k: Key): Option<bool> {
    if k in ledger then Some(ParseBoolean(ledger[k])) else None
  }

  /** The ledger OK commits: the dialog's ledger with the variant colours staged. */
  function CommitLedger(d: Dialog, inputs: OkInputs, codec: ColorCodec): Staged {
    CheckVcfColors(d.store, d.ledger, inputs.vcf, codec)
  }

  /**
   * The part of OK after the variant colours are staged: the ledger is
   * written, the listener is halted when a port key is staged and restarted
   * when the port box is ticked, each dirty flag and pending move triggers
   * its effect, and the ledger is cleared.
   */
  function Finish(d: Dialog, ledger: Staged, inputs: OkInputs): (r: Outcome)
    ensures r.Closed? || r.Failed?
    ensures r.lastSelectedTab == inputs.selectedTab
    ensures r.dialog.store == Flush(d.store, ledger)
    ensures r.Failed? <==> PortStaged(ledger) && inputs.portBoxTicked && StagedPort(ledger).None?
    ensures r.Failed? ==> r.dialog.ledger == ledger && r.clearedProbeMappings == (ProbeMapping in ledger)
    ensures r.Closed? ==>
              && r.dialog.ledger == map[]
              && r.effects.clearProbeMappings == (ProbeMapping in ledger)
              && (r.effects.listener == KeepListener <==> !PortStaged(ledger))
              && (r.effects.listener.Restart? <==> PortStaged(ledger) && inputs.portBoxTicked)
              && (r.effects.listener.Restart? ==> StagedPort(ledger) == Some(r.effects.listener.port))
              && r.effects.resetOverlays == d.updateOverlays
              && r.effects.updateProxy == d.proxySettingsChanged
              && r.effects.moveIgvDirectoryTo == d.newIgvDirectory
              && r.effects.moveCramCacheTo == d.newCramCacheDirectory
              && r.effects.updateTooltips == d.tooltipSettingsChanged
              && r.effects.googleMenu == StagedFlag(ledger, EnableGoogleMenu)
              && r.effects.saveGoogleCredentials == StagedFlag(ledger, SaveGoogleCredentials)
  {
    var store := Flush(d.store, ledger);
    if PortStaged(ledger) && inputs.portBoxTicked && StagedPort(ledger).None? then
      Failed(d.(store := store, ledger := ledger), ProbeMapping in ledger, inputs.selectedTab)
    else
      var listener :=
        if !PortStaged(ledger) then KeepListener
        else if inputs.portBoxTicked then Restart(StagedPort(ledger).value)
        else HaltOnly;
      var effects := Effects(
        ProbeMapping in ledger, listener, d.updateOverlays, d.proxySettingsChanged,
        d.newIgvDirectory, d.newCramCacheDirectory, d.tooltipSettingsChanged,
        StagedFlag(ledger, EnableGoogleMenu), StagedFlag(ledger, SaveGoogleCredentials));
      Closed(d.(store := store, ledger := map[]), effects, inputs.selectedTab)
  }

  /** `resetValidation`: input is assumed valid until a handler says otherwise. */
  function ResetValidation(d: Dialog): (r: Dialog)
    ensures r.inputValidated
    ensures r.(inputValidated := d.inputValidated) == d
  {
    d.(inputValidated := true)
  }

  /**
   * The OK button. With invalid input it only re-arms validation. Otherwise
   * every key outside the variant settings reads, afterwards, what the
   * ledger staged for it (a staged null or empty string unsets it) or else
   * what the store held.
   */
  function Ok(d: Dialog, inputs: OkInputs, codec: ColorCodec): (r: Outcome)
    ensures !d.inputValidated ==> r.StaysOpen? && r.dialog == d.(inputValidated := true)
    ensures d.inputValidated ==> r == Finish(d, CommitLedger(d, inputs, codec), inputs)
    ensures d.inputValidated ==>
              forall k :: k !in VcfKeys ==> Get(r.dialog.store, k) == if k in d.ledger then Written(d.ledger[k]) else Get(d.store, k)
  {
    if !d.inputValidated then StaysOpen(ResetValidation(d))
    else Finish(d, CommitLedger(d, inputs, codec), inputs)
  }

  /** The step of OK's body that performs an event. */
  function Step(ev: Event): (n: nat)
    ensures n <= 10
  {
    match ev
    case ClearProbeMappings => 0
    case HaltListener => 1
    case StartListener(_) => 2
    case ResetOverlayTracks => 3
    case UpdateProxySettings => 4
    case MoveIgvDirectory(_) => 5
    case MoveCramCache(_) => 6
    case UpdateTooltips => 7
    case ShowGoogleMenu(_) => 8
    case SaveGoogleOption(_) => 9
    case Refresh => 10
  }

  /** What step `n` of OK's body performs, given the effects it calls for. */
  function StepEvents(e: Effects, n: nat): (r: seq<Event>)
    ensures |r| <= 1
    ensures forall i :: 0 <= i < |r| ==> Step(r[i]) == n
  {
    if n == 0 then (if e.clearProbeMappings then [ClearProbeMappings] else [])
    else if n == 1 then (if e.listener != KeepListener then [HaltListener] else [])
    else if n == 2 then (match e.listener case Restart(p) => [StartListener(p)] case _ => [])
    else if n == 3 then (if e.resetOverlays then [ResetOverlayTracks] else [])
    else if n == 4 then (if e.updateProxy then [UpdateProxySettings] else [])
    else if n == 5 then (match e.moveIgvDirectoryTo case Some(t) => [MoveIgvDirectory(t)] case None => [])
    else if n == 6 then (match e.moveCramCacheTo case Some(t) => [MoveCramCache(t)] case None => [])
    else if n == 7 then (if e.updateTooltips then [UpdateTooltips] else [])
    else if n == 8 then (match e.googleMenu case Some(b) => [ShowGoogleMenu(b)] case None => [])
    else if n == 9 then (match e.saveGoogleCredentials case Some(b) => [SaveGoogleOption(b)] case None => [])
    else if n == 10 then [Refresh]
    else []
  }

  /** Events in strictly increasing step order, hence each at most once. */
  predicate Ascending(s: seq<Event>) {
    forall i, j :: 0 <= i < j < |s| ==> Step(s[i]) < Step(s[j])
  }

  /** In step order, an event of an earlier step sits at an earlier index. */
  lemma EarlierStepEarlierIndex(s: seq<Event>, a: nat, b: nat)
    requires Ascending(s) && a < |s| && b < |s|
    requires Step(s[a]) < Step(s[b])
    ensures a < b
  {
  }

  /** In step order, events `b - a` places apart are at least `b - a` steps apart. */
  lemma {:induction false} StepGap(s: seq<Event>, a: nat, b: nat)
    requires Ascending(s) && a <= b < |s|
    ensures Step(s[b]) - Step(s[a]) >= b - a
    decreases b - a
  {
    if a < b {
      StepGap(s, a, b - 1);
      assert Step(s[b - 1]) < Step(s[b]);
    }
  }

  /** In step order, an event of the very next step follows immediately. */
  lemma NextStepNextIndex(s: seq<Event>, a: nat, b: nat)
    requires Ascending(s) && a < |s| && b < |s|
    requires Step(s[b]) == Step(s[a]) + 1
    ensures b == a + 1
  {
    EarlierStepEarlierIndex(s, a, b);
    StepGap(s, a, b);
  }

  /** The events of steps `n` to 10 of OK's body. */
  function EventsFrom(e: Effects, n: nat): seq<Event>
    requires n <= 10
    decreases 10 - n
  {
    if n == 10 then StepEvents(e, 10)
    else StepEvents(e, n) + EventsFrom(e, n + 1)
  }

  /** At most one event of step `n` before events of later steps stays in step order. */
  lemma PrependStep(h: seq<Event>, t: seq<Event>, n: nat)
    requires |h| <= 1 && forall i :: 0 <= i < |h| ==> Step(h[i]) == n
    requires Ascending(t) && forall i :: 0 <= i < |t| ==> n < Step(t[i])
    ensures Ascending(h + t)
    ensures forall i :: 0 <= i < |h + t| ==> n <= Step((h + t)[i])
  {
    forall i, j | 0 <= i < j < |h + t|
      ensures Step((h + t)[i]) < Step((h + t)[j])
    {
      assert (h + t)[j] == t[j - |h|];
      if i >= |h| {
        assert (h + t)[i] == t[i - |h|];
      }
    }
  }

  /** Steps `n` to 10 perform their events in step order, none before step `n`. */
  lemma {:induction false} EventsFromAscending(e: Effects, n: nat)
    requires n <= 10
    ensures Ascending(EventsFrom(e, n))
    ensures forall i :: 0 <= i < |EventsFrom(e, n)| ==> n <= Step(EventsFrom(e, n)[i])
    decreases 10 - n
  {
    if n < 10 {
      EventsFromAscending(e, n + 1);
      PrependStep(StepEvents(e, n), EventsFrom(e, n + 1), n);
    }
  }

  /** The first step of OK's body. */
  const FirstStep: nat := 0

  /** An event occurs in steps `n` to 10 exactly when its own step, from `n` on, performs it. */
  lemma {:induction false} InEventsFrom(e: Effects, n: nat, ev: Event)
    requires n <= 10
    ensures ev in EventsFrom(e, n) <==> n <= Step(ev) && ev in StepEvents(e, Step(ev))
    decreases 10 - n
  {
    var here := StepEvents(e, n);
    assert ev in here ==> Step(ev) == n;
    if n < 10 {
      InEventsFrom(e, n + 1, ev);
      assert EventsFrom(e, n) == here + EventsFrom(e, n + 1);
    }
  }

  /** Whether the effects call for an event: its flag is set or its value pending. */
  predicate Called(e: Effects, ev: Event) {
    match ev
    case ClearProbeMappings => e.clearProbeMappings
    case HaltListener => e.listener != KeepListener
    case StartListener(p) => e.listener == Restart(p)
    case ResetOverlayTracks => e.resetOverlays
    case UpdateProxySettings => e.updateProxy
    case MoveIgvDirectory(t) => e.moveIgvDirectoryTo == Some(t)
    case MoveCramCache(t) => e.moveCramCacheTo == Some(t)
    case UpdateTooltips => e.updateTooltips
    case ShowGoogleMenu(b) => e.googleMenu == Some(b)
    case SaveGoogleOption(b) => e.saveGoogleCredentials == Some(b)
    case Refresh => true
  }

  /** An event's own step performs it exactly when the effects call for it. */
  lemma StepPerformsCalled(e: Effects, ev: Event)
    ensures ev in StepEvents(e, Step(ev)) <==> Called(e, ev)
  {
    match ev
    case ClearProbeMappings =>
    case HaltListener =>
    case StartListener(p) =>
    case ResetOverlayTracks =>
    case UpdateProxySettings =>
    case MoveIgvDirectory(t) =>
    case MoveCramCache(t) =>
    case UpdateTooltips =>
    case ShowGoogleMenu(b) =>
    case SaveGoogleOption(b) =>
    case Refresh =>
  }

  /** An event occurs in OK's events exactly when the effects call for it. */
  lemma InEvents(e: Effects, ev: Event)
    ensures ev in EventsFrom(e, FirstStep) <==> Called(e, ev)
  {
    InEventsFrom(e, FirstStep, ev);
    StepPerformsCalled(e, ev);
  }

  /**
   * A sequence of events performs the effects: in step order, holding
   * exactly the events they call for, ending with the refresh.
   */
  ghost predicate Performs(e: Effects, r: seq<Event>) {
    && Ascending(r)
    && (forall ev :: ev in r <==> Called(e, ev))
    && |r| > 0 && r[|r| - 1] == Refresh
  }

  /** In step order, a refresh present at all is the last event. */
  lemma RefreshIsLast(r: seq<Event>)
    requires Ascending(r) && Refresh in r
    ensures |r| > 0 && r[|r| - 1] == Refresh
  {
    var i :| 0 <= i < |r| && r[i] == Refresh;
    StepGap(r, i, |r| - 1);
  }

  /** OK's body performs its effects. */
  lemma EventsFromPerforms(e: Effects)
    ensures Performs(e, EventsFrom(e, FirstStep))
  {
    var r := EventsFrom(e, FirstStep);
    EventsFromAscending(e, FirstStep);
    forall ev
      ensures ev in r <==> Called(e, ev)
    {
      InEvents(e, ev);
    }
    RefreshIsLast(r);
  }

  /** Each parameterless event occurs exactly when its flag calls for it. */
  lemma FlagEvents(e: Effects, r: seq<Event>)
    requires Performs(e, r)
    ensures ClearProbeMappings in r <==> e.clearProbeMappings
    ensures HaltListener in r <==> e.listener != KeepListener
    ensures ResetOverlayTracks in r <==> e.resetOverlays
    ensures UpdateProxySettings in r <==> e.updateProxy
    ensures UpdateTooltips in r <==> e.updateTooltips
  {
    assert Called(e, ClearProbeMappings) == e.clearProbeMappings;
    assert Called(e, HaltListener) == (e.listener != KeepListener);
    assert Called(e, ResetOverlayTracks) == e.resetOverlays;
    assert Called(e, UpdateProxySettings) == e.updateProxy;
    assert Called(e, UpdateTooltips) == e.updateTooltips;
  }

  /** Each event with a payload occurs exactly when its pending value calls for it. */
  lemma ValueEvents(e: Effects, r: seq<Event>)
    requires Performs(e, r)
    ensures forall p :: StartListener(p) in r <==> e.listener == Restart(p)
    ensures forall t :: MoveIgvDirectory(t) in r <==> e.moveIgvDirectoryTo == Some(t)
    ensures forall t :: MoveCramCache(t) in r <==> e.moveCramCacheTo == Some(t)
    ensures forall b :: ShowGoogleMenu(b) in r <==> e.googleMenu == Some(b)
    ensures forall b :: SaveGoogleOption(b) in r <==> e.saveGoogleCredentials == Some(b)
  {
    forall p: int ensures StartListener(p) in r <==> e.listener == Restart(p) {
      assert Called(e, StartListener(p)) == (e.listener == Restart(p));
    }
    forall t: string ensures MoveIgvDirectory(t) in r <==> e.moveIgvDirectoryTo == Some(t) {
      assert Called(e, MoveIgvDirectory(t)) == (e.moveIgvDirectoryTo == Some(t));
    }
    forall t: string ensures MoveCramCache(t) in r <==> e.moveCramCacheTo == Some(t) {
      assert Called(e, MoveCramCache(t)) == (e.moveCramCacheTo == Some(t));
    }
    forall b: bool ensures ShowGoogleMenu(b) in r <==> e.googleMenu == Some(b) {
      assert Called(e, ShowGoogleMenu(b)) == (e.googleMenu == Some(b));
    }
    forall b: bool ensures SaveGoogleOption(b) in r <==> e.saveGoogleCredentials == Some(b) {
      assert Called(e, SaveGoogleOption(b)) == (e.saveGoogleCredentials == Some(b));
    }
  }

  /**
   * The effects of a completed OK in the order its body performs them:
   * each event occurs exactly when its flag or pending value calls for it,
   * at most once, in source order, and the refresh comes last.
   */
  function Events(e: Effects): (r: seq<Event>)
    ensures Ascending(r)
    ensures ClearProbeMappings in r <==> e.clearProbeMappings
    ensures HaltListener in r <==> e.listener != KeepListener
    ensures forall p :: StartListener(p) in r <==> e.listener == Restart(p)
    ensures ResetOverlayTracks in r <==> e.resetOverlays
    ensures UpdateProxySettings in r <==> e.updateProxy
    ensures forall t :: MoveIgvDirectory(t) in r <==> e.moveIgvDirectoryTo == Some(t)
    ensures forall t :: MoveCramCache(t) in r <==> e.moveCramCacheTo == Some(t)
    ensures UpdateTooltips in r <==> e.updateTooltips
    ensures forall b :: ShowGoogleMenu(b) in r <==> e.googleMenu == Some(b)
    ensures forall b :: SaveGoogleOption(b) in r <==> e.saveGoogleCredentials == Some(b)
    ensures |r| > 0 && r[|r| - 1] == Refresh
  {
    var r := EventsFrom(e, FirstStep);
    EventsFromPerforms(e);
    FlagEvents(e, r);
    ValueEvents(e, r);
    r
  }

  /** The Cancel button: the dialog closes and nothing is written. */
  function Cancel(d: Dialog): (r: Outcome)
    ensures r.Canceled? && r.dialog.store == d.store
  {
    Canceled(d)
  }
}
