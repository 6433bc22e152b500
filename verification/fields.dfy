/**
 * The per-field validate-and-stage handlers of the preferences dialog.
 * Each handler is a pure transition on the dialog's editing state: the
 * widget text or checkbox state it reads is an argument, a message box or a
 * widget reset it performs is returned as feedback, and every staged value
 * goes through the ledger's `Put`.
 */
module Fields {
  import opened Wrappers
  import opened Ledger
  import opened PrefKeys
  import opened JavaInts
  import opened JavaStrings
  import TextForms

  /** The editing state of one open dialog. */
  datatype Dialog = Dialog(
    store: Store,
    ledger: Staged,
    inputValidated: bool,
    updateOverlays: bool,
    proxySettingsChanged: bool,
    tooltipSettingsChanged: bool,
    newIgvDirectory: Option<string>,
    newCramCacheDirectory: Option<string>)

  /** A freshly opened dialog: nothing staged, input valid, no dirty flag. */
  function Open(store: Store): (d: Dialog)
    ensures d.store == store && d.ledger == map[] && d.inputValidated
    ensures !d.updateOverlays && !d.proxySettingsChanged && !d.tooltipSettingsChanged
    ensures d.newIgvDirectory.None? && d.newCramCacheDirectory.None?
    ensures Pending(d.store, d.ledger)
  {
    Dialog(store, map[], true, false, false, false, None, None)
  }

  /** What fired a text field's handler: the Enter key or the loss of focus. */
  datatype Trigger = Confirm | FocusLost

  /** Text boxes a failing handler resets to the stored value. */
  datatype TextBox = JunctionFlankingBox | JunctionCoverageBox | CramCacheSizeBox

  /** What the user sees besides the staged change. */
  datatype Feedback =
    | Quiet
    | Warn(message: string)
      /** `box` is reset to `shown` (a stored value, possibly null) and `message` shown. */
    | Revert(box: TextBox, shown: Option<Value>, message: string)
      /** The attribute panel is shown or hidden at once, before any commit. */
    | ShowAttributes(visible: bool)

  datatype Reaction = Reaction(dialog: Dialog, feedback: Feedback)

  /**
   * `e` is `d` after handlers that stage only `keys`: the store is untouched,
   * staged entries are neither dropped nor changed outside `keys`, the ledger
   * stays free of no-op entries, the validity flag is never set and the
   * dirty flags are never cleared.
   */
  predicate Evolves(d: Dialog, e: Dialog, keys: set<Key>) {
    && e.store == d.store
    && (Pending(d.store, d.ledger) ==> Pending(e.store, e.ledger))
    && d.ledger.Keys <= e.ledger.Keys
    && (forall k :: k in e.ledger && k !in keys ==> k in d.ledger && e.ledger[k] == d.ledger[k])
    && (e.inputValidated ==> d.inputValidated)
    && (d.updateOverlays ==> e.updateOverlays)
    && (d.proxySettingsChanged ==> e.proxySettingsChanged)
    && (d.tooltipSettingsChanged ==> e.tooltipSettingsChanged)
    && e.newIgvDirectory == d.newIgvDirectory
    && e.newCramCacheDirectory == d.newCramCacheDirectory
  }

  lemma EvolvesTrans(d: Dialog, e: Dialog, f: Dialog, keys: set<Key>)
    requires Evolves(d, e, keys) && Evolves(e, f, keys)
    ensures Evolves(d, f, keys)
  {
  }

  /** What the store will read for `k` once the dialog's ledger is committed. */
  function Committed(e: Dialog, k: Key): Option<Value> {
    Get(Flush(e.store, e.ledger), k)
  }

  /** Stage a value through the ledger, nothing else changing. */
  function Stage(d: Dialog, k: Key, v: Option<Value>): (e: Dialog)
    requires v.Some? || k in d.store
    ensures Evolves(d, e, {k})
    ensures e.inputValidated == d.inputValidated
    ensures Get(d.store, k) != v ==> k in e.ledger && e.ledger[k] == v
    ensures Get(d.store, k) == v ==> e.ledger == d.ledger
    ensures Get(d.store, k) != v ==> Committed(e, k) == Written(v)
    ensures k !in d.ledger && Get(d.store, k) == v ==> Committed(e, k) == v
  {
    d.(ledger := Put(d.store, d.ledger, k, v))
  }

  // ------------------------------------------------------ integer fields

  /** The text fields whose handlers call `Integer.parseInt`. */
  datatype IntSetting =
    | JunctionFlanking | JunctionCoverage
    | InsertSizeMax | InsertSizeMin | MappingQuality
    | LargeIndels | Clipping | SmallIndels | DownsampleWindow | DownsampleCount
    | DefaultTrackHeight | DefaultChartTrackHeight | GeneListFlanking
    | BaseQualityMin | BaseQualityMax | ListenerPort
    | TooltipInitial | TooltipReshow | TooltipDismiss
    | ProxyPortNumber

  function IntKey(s: IntSetting): Key {
    match s
    case JunctionFlanking => JunctionMinFlankingWidth
    case JunctionCoverage => JunctionMinCoverage
    case InsertSizeMax => MaxInsertSizeThreshold
    case InsertSizeMin => MinInsertSizeThreshold
    case MappingQuality => QualityThreshold
    case LargeIndels => LargeIndelsThreshold
    case Clipping => ClippingThreshold
    case SmallIndels => SmallIndelBpThreshold
    case DownsampleWindow => SamplingWindow
    case DownsampleCount => SamplingCount
    case DefaultTrackHeight => TrackHeight
    case DefaultChartTrackHeight => ChartTrackHeight
    case GeneListFlanking => FlankingRegion
    case BaseQualityMin => PrefKeys.BaseQualityMin
    case BaseQualityMax => PrefKeys.BaseQualityMax
    case ListenerPort => PortNumber
    case TooltipInitial => TooltipInitialDelay
    case TooltipReshow => TooltipReshowDelay
    case TooltipDismiss => TooltipDismissDelay
    case ProxyPortNumber => ProxyPort
  }

  /** The box a handler reads: both track-height handlers read the chart box. */
  function ReadsBox(s: IntSetting): IntSetting {
    if s == DefaultTrackHeight then DefaultChartTrackHeight else s
  }

  /** Handlers that call `trim()` before parsing. */
  predicate Trims(s: IntSetting) {
    !(s in {DefaultTrackHeight, DefaultChartTrackHeight, GeneListFlanking,
            TooltipInitial, TooltipReshow, TooltipDismiss, ProxyPortNumber})
  }

  datatype Bound = AnyInt | NonNegative | Positive

  function BoundOf(s: IntSetting): Bound {
    if s in {LargeIndels, SmallIndels, DownsampleWindow, DownsampleCount} then Positive
    else if s in {Clipping, JunctionFlanking, JunctionCoverage} then NonNegative
    else AnyInt
  }

  predicate Within(n: int, b: Bound) {
    match b
    case AnyInt => true
    case NonNegative => n >= 0
    case Positive => n > 0
  }

  /** Handlers whose failure clears the dialog's validity flag. */
  predicate Invalidates(s: IntSetting) {
    !(s in {JunctionFlanking, JunctionCoverage, TooltipInitial, TooltipReshow, TooltipDismiss, ProxyPortNumber})
  }

  predicate IsTooltip(s: IntSetting) {
    s in {TooltipInitial, TooltipReshow, TooltipDismiss}
  }

  function IntMessage(s: IntSetting): string {
    match s
    case JunctionFlanking => "Flanking width must be a positive integer."
    case JunctionCoverage => "Minimum junction coverage must be a positive integer."
    case InsertSizeMax => "BlastMapping quality threshold must be an integer."
    case InsertSizeMin => "BlastMapping quality threshold must be an integer."
    case MappingQuality => "BlastMapping quality threshold must be an integer."
    case LargeIndels => "Insertion threshold must be a positive integer."
    case Clipping => "Clipping threshold must be a non-negative integer."
    case SmallIndels => "Threshold must be a positive integer."
    case DownsampleWindow => "Down-sampling window must be a positive integer."
    case DownsampleCount => "Down-sampling read count must be a positive integer."
    case DefaultTrackHeight => "Track height must be an integer number."
    case DefaultChartTrackHeight => "Track height must be an integer number."
    case GeneListFlanking => "Flanking region must be an integer number."
    case BaseQualityMin => "Base quality must be an integer."
    case BaseQualityMax => "Base quality must be an integer."
    case ListenerPort => "Port must be an integer."
    case TooltipInitial => "Tooltip initial delay must be a number."
    case TooltipReshow => "Tooltip reshow delay must be a number."
    case TooltipDismiss => "Tooltip dismiss delay must be a number."
    case ProxyPortNumber => "Proxy port must be an integer."
  }

  /** The text an integer handler parses and stages. */
  function IntText(s: IntSetting, boxes: IntSetting -> string): string {
    var raw := boxes(ReadsBox(s));
    if Trims(s) then Trim(raw) else raw
  }

  /** The handler stages its text: it parses and meets the field's bound. */
  predicate IntAccepted(s: IntSetting, boxes: IntSetting -> string) {
    var n := ParseInt(IntText(s, boxes));
    n.Some? && Within(n.value, BoundOf(s))
  }

  /**
   * The junction fields reset their box and complain only when called with
   * an event: the flanking field from its Enter handler, the coverage field
   * from its focus handler. The others always show a message.
   */
  function IntFailure(d: Dialog, s: IntSetting, trigger: Trigger): Feedback {
    if s == JunctionFlanking then
      if trigger == Confirm then Revert(JunctionFlankingBox, Get(d.store, IntKey(s)), IntMessage(s)) else Quiet
    else if s == JunctionCoverage then
      if trigger == FocusLost then Revert(JunctionCoverageBox, Get(d.store, IntKey(s)), IntMessage(s)) else Quiet
    else Warn(IntMessage(s))
  }

  /**
   * An integer field's handler. On success the text is staged; the tooltip
   * fields also mark the tooltips dirty and the proxy port marks the proxy
   * settings dirty. On failure nothing is staged and, for most fields, the
   * validity flag is cleared.
   */
  function EditInt(d: Dialog, s: IntSetting, boxes: IntSetting -> string, trigger: Trigger): (r: Reaction)
    ensures Evolves(d, r.dialog, {IntKey(s)})
    ensures IntAccepted(s, boxes) ==>
              && r.dialog.ledger == Put(d.store, d.ledger, IntKey(s), Some(IntText(s, boxes)))
              && r.dialog.inputValidated == d.inputValidated
              && r.feedback == Quiet
    ensures !IntAccepted(s, boxes) ==>
              && r.dialog.ledger == d.ledger
              && r.dialog.inputValidated == (d.inputValidated && !Invalidates(s))
              && (r.feedback != Quiet <==> (s != JunctionFlanking || trigger == Confirm) && (s != JunctionCoverage || trigger == FocusLost))
    ensures r.dialog.tooltipSettingsChanged == (d.tooltipSettingsChanged || (IsTooltip(s) && IntAccepted(s, boxes)))
    ensures r.dialog.proxySettingsChanged == (d.proxySettingsChanged || (s == ProxyPortNumber && IntAccepted(s, boxes)))
    ensures r.dialog.updateOverlays == d.updateOverlays
    ensures r.dialog.newIgvDirectory == d.newIgvDirectory && r.dialog.newCramCacheDirectory == d.newCramCacheDirectory
  {
    var text := IntText(s, boxes);
    if IntAccepted(s, boxes) then
      var staged := Stage(d, IntKey(s), Some(text));
      var flagged :=
        if IsTooltip(s) then staged.(tooltipSettingsChanged := true)
        else if s == ProxyPortNumber then staged.(proxySettingsChanged := true)
        else staged;
      Reaction(flagged, Quiet)
    else
      Reaction(if Invalidates(s) then d.(inputValidated := false) else d, IntFailure(d, s, trigger))
  }

  /** The database port: blank or malformed text stages "-1", anything else its trimmed text. */
  function DbPortText(text: string): (r: string)
    ensures ParseInt(r).Some?
    ensures ParseInt(Trim(text)).Some? ==> r == Trim(text)
    ensures ParseInt(Trim(text)).None? ==> r == "-1"
  {
    var t := Trim(text);
    ParseFormatRoundTrip(-1);
    if |t| == 0 then "-1"
    else if ParseInt(t).Some? then t
    else "-1"
  }

  function EditDbPort(d: Dialog, text: string): (r: Reaction)
    ensures Evolves(d, r.dialog, {DbPort})
    ensures r.dialog == d.(ledger := Put(d.store, d.ledger, DbPort, Some(DbPortText(text)))) && r.feedback == Quiet
    ensures Get(d.store, DbPort) != Some(DbPortText(text)) ==> Committed(r.dialog, DbPort) == Some(DbPortText(text))
  {
    Reaction(Stage(d, DbPort, Some(DbPortText(text))), Quiet)
  }

  // --------------------------------------------- floating-point fields

  /** A Java `float`/`double` value as far as the handlers compare it. */
  datatype JavaFloat = Finite(value: real) | NaN | Infinity(positive: bool)

  /**
   * A number parser supplied by the caller: `None` stands for
   * NumberFormatException, and a finite result is the parsed value after
   * rounding to the parser's precision.
   */
  type NumberParser = string -> Option<JavaFloat>

  /**
   * `Double.parseDouble` and `Float.parseFloat`; the latter rounds to single
   * precision (so "10000.0001" reads as 10000).
   */
  datatype Parsers = Parsers(parseDouble: NumberParser, parseFloat: NumberParser)

  /** The text fields whose handlers parse a floating-point number. */
  datatype NumberSetting =
    | VisibilityWindow | MinInsertPercentile | MaxInsertPercentile
    | MaxVisibleRangeField | AlleleThresholdField | CramCacheSizeField

  /**
   * The maximum-visible-range and CRAM cache-size handlers parse with
   * `Float.parseFloat`; the other floating-point fields with
   * `Double.parseDouble`.
   */
  function NumberParserFor(s: NumberSetting, parse: Parsers): NumberParser {
    if s == MaxVisibleRangeField || s == CramCacheSizeField then parse.parseFloat else parse.parseDouble
  }

  function NumberKey(s: NumberSetting): Key {
    match s
    case VisibilityWindow => DefaultVisibilityWindow
    case MinInsertPercentile => MinInsertSizePercentile
    case MaxInsertPercentile => MaxInsertSizePercentile
    case MaxVisibleRangeField => MaxVisibleRange
    case AlleleThresholdField => AlleleThreshold
    case CramCacheSizeField => CramCacheSize
  }

  predicate NumberTrims(s: NumberSetting) {
    s in {VisibilityWindow, MinInsertPercentile, MaxInsertPercentile, AlleleThresholdField}
  }

  predicate NumberInvalidates(s: NumberSetting) {
    s in {MinInsertPercentile, MaxInsertPercentile, MaxVisibleRangeField, AlleleThresholdField}
  }

  function NumberMessage(s: NumberSetting): string {
    match s
    case VisibilityWindow => "Visibility window must be a number"
    case MinInsertPercentile => "Minimum insert size percentile must be a number."
    case MaxInsertPercentile => "Maximum insert size percentile must be a number."
    case MaxVisibleRangeField => "Visibility range must be a number."
    case AlleleThresholdField => "Allele frequency threshold must be a number."
    case CramCacheSizeField => "Cache size must be a number"
  }

  /**
   * A failing visibility-window Enter resets the junction-flanking box (not
   * its own) to the stored visibility window; a failing cache size resets
   * its own box whatever the trigger.
   */
  function NumberFailure(d: Dialog, s: NumberSetting, trigger: Trigger): Feedback {
    if s == VisibilityWindow then
      if trigger == Confirm then Revert(JunctionFlankingBox, Get(d.store, DefaultVisibilityWindow), NumberMessage(s))
      else Quiet
    else if s == CramCacheSizeField then
      Revert(CramCacheSizeBox, Get(d.store, CramCacheSize), NumberMessage(s))
    else Warn(NumberMessage(s))
  }

  function NumberText(s: NumberSetting, text: string): string {
    if NumberTrims(s) then Trim(text) else text
  }

  function EditNumber(d: Dialog, s: NumberSetting, text: string, trigger: Trigger, parse: NumberParser): (r: Reaction)
    ensures Evolves(d, r.dialog, {NumberKey(s)})
    ensures parse(NumberText(s, text)).Some? ==>
              r.dialog == d.(ledger := Put(d.store, d.ledger, NumberKey(s), Some(NumberText(s, text))))
              && r.feedback == Quiet
    ensures parse(NumberText(s, text)).None? ==>
              r.dialog == d.(inputValidated := d.inputValidated && !NumberInvalidates(s))
    ensures parse(NumberText(s, text)).None? && s == VisibilityWindow ==>
              r.feedback == if trigger == Confirm
                            then Revert(JunctionFlankingBox, Get(d.store, DefaultVisibilityWindow), NumberMessage(s))
                            else Quiet
    ensures parse(NumberText(s, text)).None? && s == CramCacheSizeField ==>
              r.feedback == Revert(CramCacheSizeBox, Get(d.store, CramCacheSize), NumberMessage(s))
    ensures parse(NumberText(s, text)).None? && s != VisibilityWindow && s != CramCacheSizeField ==>
              r.feedback == Warn(NumberMessage(s))
  {
    var t := NumberText(s, text);
    if parse(t).Some? then Reaction(Stage(d, NumberKey(s), Some(t)), Quiet)
    else Reaction(if NumberInvalidates(s) then d.(inputValidated := false) else d, NumberFailure(d, s, trigger))
  }

  /** Java's `<` and `>` against a finite bound: false whenever NaN is involved. */
  predicate FloatBelow(v: JavaFloat, bound: real) {
    match v
    case Finite(x) => x < bound
    case NaN => false
    case Infinity(positive) => !positive
  }

  predicate FloatAbove(v: JavaFloat, bound: real) {
    match v
    case Finite(x) => x > bound
    case NaN => false
    case Infinity(positive) => positive
  }

  const SequenceResolutionMessage := "Visibility range must be a number between 1 and 10000."

  /**
   * The sequence-resolution field acts on focus loss only. It parses the
   * text with commas removed and stages the text as typed when the value
   * is not below 1 nor above 10000; out of range it only warns, and only
   * unparseable text clears the validity flag.
   */
  function EditSequenceResolution(d: Dialog, text: string, trigger: Trigger, parseFloat: NumberParser): (r: Reaction)
    ensures Evolves(d, r.dialog, {MaxSequenceResolution})
    ensures trigger == Confirm ==> r == Reaction(d, Quiet)
    ensures var v := parseFloat(RemoveAll(text, ','));
            trigger == FocusLost ==>
              && (v.Some? && v.value.Finite? && 1.0 <= v.value.value <= 10000.0 ==>
                    r == Reaction(d.(ledger := Put(d.store, d.ledger, MaxSequenceResolution, Some(text))), Quiet))
              && (v.Some? && v.value.Finite? && !(1.0 <= v.value.value <= 10000.0) ==>
                    r == Reaction(d, Warn(SequenceResolutionMessage)))
              && (v == Some(NaN) ==>
                    r == Reaction(d.(ledger := Put(d.store, d.ledger, MaxSequenceResolution, Some(text))), Quiet))
              && (v.Some? && v.value.Infinity? ==> r == Reaction(d, Warn(SequenceResolutionMessage)))
              && (v.None? ==> r == Reaction(d.(inputValidated := false), Warn(SequenceResolutionMessage)))
  {
    if trigger == Confirm then Reaction(d, Quiet)
    else
      match parseFloat(RemoveAll(text, ','))
      case None => Reaction(d.(inputValidated := false), Warn(SequenceResolutionMessage))
      case Some(v) =>
        if FloatBelow(v, 1.0) || FloatAbove(v, 10000.0) then Reaction(d, Warn(SequenceResolutionMessage))
        else Reaction(Stage(d, MaxSequenceResolution, Some(text)), Quiet)
  }

  // -------------------------------------------------------- checkboxes

  /** A plain checkbox stages "true" or "false" for its own state. */
  function ToggleBox(d: Dialog, k: Key, ticked: bool): (r: Reaction)
    ensures Evolves(d, r.dialog, {k})
    ensures r.dialog == d.(ledger := Put(d.store, d.ledger, k, Some(BoolText(ticked)))) && r.feedback == Quiet
    ensures Get(d.store, k) != Some(BoolText(ticked)) ==> Committed(r.dialog, k) == Some(BoolText(ticked))
  {
    Reaction(Stage(d, k, Some(BoolText(ticked))), Quiet)
  }

  /**
   * The "filter duplicates" and "auto file discovery" boxes show the
   * negation of their stored flag and stage the negation of their state.
   */
  function ToggleNegatedBox(d: Dialog, k: Key, ticked: bool): (r: Reaction)
    ensures Evolves(d, r.dialog, {k})
    ensures r.dialog == d.(ledger := Put(d.store, d.ledger, k, Some(BoolText(!ticked)))) && r.feedback == Quiet
    ensures Get(d.store, k) != Some(BoolText(!ticked)) ==> Committed(r.dialog, k) == Some(BoolText(!ticked))
  {
    Reaction(Stage(d, k, Some(BoolText(!ticked))), Quiet)
  }

  /**
   * The box state a negated binding shows when the dialog opens: the
   * negation of the stored flag, ticked when nothing is stored.
   */
  function NegatedBoxShown(store: Store, k: Key): (shown: bool)
    ensures forall b :: Get(store, k) == Some(BoolText(b)) ==> shown == !b
    ensures Get(store, k).None? ==> shown
    ensures shown <==> !(k in store && EqualsIgnoreCase(store[k], "true"))
  {
    BoolTextRoundTrip(true);
    BoolTextRoundTrip(false);
    !ParseBoolean(Get(store, k))
  }

  function ToggleOverlayTracks(d: Dialog, ticked: bool): (r: Reaction)
    ensures Evolves(d, r.dialog, {OverlayMutationTracks})
    ensures r.dialog == d.(ledger := Put(d.store, d.ledger, OverlayMutationTracks, Some(BoolText(ticked))),
                           updateOverlays := true)
    ensures r.feedback == Quiet
    ensures Get(d.store, OverlayMutationTracks) != Some(BoolText(ticked)) ==>
              Committed(r.dialog, OverlayMutationTracks) == Some(BoolText(ticked))
  {
    Reaction(Stage(d, OverlayMutationTracks, Some(BoolText(ticked))).(updateOverlays := true), Quiet)
  }

  /** "Use proxy" and "authenticate proxy" also mark the proxy settings dirty. */
  function ToggleProxyOption(d: Dialog, k: Key, ticked: bool): (r: Reaction)
    ensures Evolves(d, r.dialog, {k})
    ensures r.dialog == d.(ledger := Put(d.store, d.ledger, k, Some(BoolText(ticked))), proxySettingsChanged := true)
    ensures r.feedback == Quiet
    ensures Get(d.store, k) != Some(BoolText(ticked)) ==> Committed(r.dialog, k) == Some(BoolText(ticked))
    ensures Get(d.store, k) == Some(BoolText(ticked)) ==> r.dialog.ledger == d.ledger
  {
    Reaction(Stage(d, k, Some(BoolText(ticked))).(proxySettingsChanged := true), Quiet)
  }

  function ToggleAttributeDisplay(d: Dialog, ticked: bool): (r: Reaction)
    ensures Evolves(d, r.dialog, {ShowAttributeViews}) && r.feedback == ShowAttributes(ticked)
    ensures r.dialog == d.(ledger := Put(d.store, d.ledger, ShowAttributeViews, Some(BoolText(ticked))))
    ensures Get(d.store, ShowAttributeViews) != Some(BoolText(ticked)) ==>
              Committed(r.dialog, ShowAttributeViews) == Some(BoolText(ticked))
  {
    Reaction(Stage(d, ShowAttributeViews, Some(BoolText(ticked))), ShowAttributes(ticked))
  }

  /** Shading options; the stored text names one of them. */
  datatype ShadeOption = NoShading | QualityShading

  function ShadeName(o: ShadeOption): string {
    match o
    case NoShading => "NONE"
    case QualityShading => "QUALITY"
  }

  /** The stored shading option; a missing or unknown name reads as QUALITY. */
  function StoredShade(store: Store): (o: ShadeOption)
    ensures forall p :: Get(store, ShadeBases) == Some(ShadeName(p)) ==> o == p
    ensures o == NoShading ==> Get(store, ShadeBases) == Some(ShadeName(NoShading))
  {
    if Get(store, ShadeBases) == Some("NONE") then NoShading else QualityShading
  }

  /**
   * "Shade mismatched bases": ticking stages QUALITY; unticking stages NONE
   * only when the store (not the ledger) holds QUALITY.
   */
  function ToggleShadeBases(d: Dialog, ticked: bool): (r: Reaction)
    ensures Evolves(d, r.dialog, {ShadeBases}) && r.feedback == Quiet
    ensures ticked ==> r.dialog == d.(ledger := Put(d.store, d.ledger, ShadeBases, Some(ShadeName(QualityShading))))
    ensures !ticked && StoredShade(d.store) == QualityShading ==>
              r.dialog == d.(ledger := Put(d.store, d.ledger, ShadeBases, Some(ShadeName(NoShading))))
    ensures !ticked && StoredShade(d.store) != QualityShading ==> r.dialog == d
    ensures ticked && Get(d.store, ShadeBases) != Some(ShadeName(QualityShading)) ==>
              Committed(r.dialog, ShadeBases) == Some(ShadeName(QualityShading))
    ensures !ticked && StoredShade(d.store) == QualityShading ==>
              Committed(r.dialog, ShadeBases) == Some(ShadeName(NoShading))
  {
    if ticked then Reaction(Stage(d, ShadeBases, Some(ShadeName(QualityShading))), Quiet)
    else if StoredShade(d.store) == QualityShading then Reaction(Stage(d, ShadeBases, Some(ShadeName(NoShading))), Quiet)
    else Reaction(d, Quiet)
  }

  // ------------------------------------------------------- text fields

  /** Plain text fields: server URLs, BLAT URL, track-name attribute, database host and name, probe file. */
  function EditText(d: Dialog, k: Key, text: string, trims: bool): (r: Reaction)
    ensures Evolves(d, r.dialog, {k})
    ensures var v := if trims then Trim(text) else text;
            r.dialog == d.(ledger := Put(d.store, d.ledger, k, Some(v))) && r.feedback == Quiet
    ensures var v := if trims then Trim(text) else text;
            Get(d.store, k) != Some(v) ==> Committed(r.dialog, k) == Written(Some(v))
  {
    Reaction(Stage(d, k, Some(if trims then Trim(text) else text)), Quiet)
  }

  /** The overlay attribute: trimmed on focus loss, as typed on Enter; marks the overlays dirty. */
  function EditOverlayAttribute(d: Dialog, text: string, trigger: Trigger): (r: Reaction)
    ensures Evolves(d, r.dialog, {OverlayAttribute})
    ensures var v := if trigger == FocusLost then Trim(text) else text;
            r.dialog == d.(ledger := Put(d.store, d.ledger, OverlayAttribute, Some(v)), updateOverlays := true)
            && r.feedback == Quiet
    ensures var v := if trigger == FocusLost then Trim(text) else text;
            Get(d.store, OverlayAttribute) != Some(v) ==> Committed(r.dialog, OverlayAttribute) == Written(Some(v))
  {
    var v := if trigger == FocusLost then Trim(text) else text;
    Reaction(Stage(d, OverlayAttribute, Some(v)).(updateOverlays := true), Quiet)
  }

  /** Proxy host, user and type: staged as typed, marking the proxy settings dirty. */
  function EditProxyText(d: Dialog, k: Key, text: string): (r: Reaction)
    ensures Evolves(d, r.dialog, {k})
    ensures r.dialog == d.(ledger := Put(d.store, d.ledger, k, Some(text)), proxySettingsChanged := true)
    ensures r.feedback == Quiet
    ensures Get(d.store, k) != Some(text) ==> Committed(r.dialog, k) == Written(Some(text))
  {
    Reaction(Stage(d, k, Some(text)).(proxySettingsChanged := true), Quiet)
  }

  /** The proxy password, already Base64-encoded by the caller. */
  function EditProxyPassword(d: Dialog, encoded: string): (r: Reaction)
    ensures Evolves(d, r.dialog, {ProxyPassword})
    ensures r.dialog == d.(ledger := Put(d.store, d.ledger, ProxyPassword, Some(encoded)), proxySettingsChanged := true)
    ensures r.feedback == Quiet
    ensures Get(d.store, ProxyPassword) != Some(encoded) ==> Committed(r.dialog, ProxyPassword) == Written(Some(encoded))
  {
    Reaction(Stage(d, ProxyPassword, Some(encoded)).(proxySettingsChanged := true), Quiet)
  }

  function EditWhitelist(d: Dialog, text: string): (r: Reaction)
    ensures Evolves(d, r.dialog, {ProxyWhitelist})
    ensures var v := TextForms.WhitelistReference(text);
            r.dialog == d.(ledger := Put(d.store, d.ledger, ProxyWhitelist, Some(v)), proxySettingsChanged := true)
            && r.feedback == Quiet
    ensures var v := TextForms.WhitelistReference(text);
            Get(d.store, ProxyWhitelist) != Some(v) ==> Committed(r.dialog, ProxyWhitelist) == Written(Some(v))
  {
    Reaction(Stage(d, ProxyWhitelist, Some(TextForms.Whitelist(text))).(proxySettingsChanged := true), Quiet)
  }

  function EditHiddenTags(d: Dialog, text: string): (r: Reaction)
    ensures Evolves(d, r.dialog, {HiddenTags})
    ensures var v := TextForms.JoinTags(TextForms.Tags(text)) + ",";
            r.dialog == d.(ledger := Put(d.store, d.ledger, HiddenTags, Some(v))) && r.feedback == Quiet
    ensures var v := TextForms.JoinTags(TextForms.Tags(text)) + ",";
            Get(d.store, HiddenTags) != Some(v) ==> Committed(r.dialog, HiddenTags) == Some(v)
  {
    Reaction(Stage(d, HiddenTags, Some(TextForms.StagedTags(text))), Quiet)
  }

  /** The probe-file browse button stages the chosen path; a cancelled chooser stages nothing. */
  function BrowseProbeFile(d: Dialog, chosen: Option<string>): (r: Reaction)
    ensures Evolves(d, r.dialog, {ProbeMappingFile})
    ensures chosen.None? ==> r.dialog == d
    ensures chosen.Some? ==> r.dialog == d.(ledger := Put(d.store, d.ledger, ProbeMappingFile, chosen))
    ensures chosen.Some? && Get(d.store, ProbeMappingFile) != chosen ==>
              Committed(r.dialog, ProbeMappingFile) == Written(chosen)
    ensures r.feedback == Quiet
  {
    match chosen
    case None => Reaction(d, Quiet)
    case Some(path) => Reaction(Stage(d, ProbeMappingFile, Some(path)), Quiet)
  }

  /** The reset button stages null for both server URLs; both must be stored. */
  function ResetServers(d: Dialog): (r: Reaction)
    requires GenomesServerUrl in d.store && DataServerUrl in d.store
    ensures Evolves(d, r.dialog, {GenomesServerUrl, DataServerUrl})
    ensures Committed(r.dialog, GenomesServerUrl) == None && Committed(r.dialog, DataServerUrl) == None
  {
    Reaction(Stage(Stage(d, GenomesServerUrl, None), DataServerUrl, None), Quiet)
  }

  // ------------------------------------------------ directory choosers

  /** `new File(dir, "igv")`. */
  function IgvChild(dir: string): string {
    dir + "/igv"
  }

  /**
   * The IGV-directory button: a chosen directory other than the parent of
   * the current one records its "igv" child as the pending move; a
   * cancelled chooser or the current parent changes nothing.
   */
  function ChooseIgvDirectory(d: Dialog, chosen: Option<string>, currentParent: string): (r: Dialog)
    ensures r.(newIgvDirectory := d.newIgvDirectory) == d
    ensures chosen.Some? && chosen.value != currentParent ==> r.newIgvDirectory == Some(IgvChild(chosen.value))
    ensures chosen.None? || chosen.value == currentParent ==> r == d
  {
    if chosen.Some? && chosen.value != currentParent then d.(newIgvDirectory := Some(IgvChild(chosen.value))) else d
  }

  /** The CRAM-cache-directory button, with the same rule as the IGV-directory button. */
  function ChooseCramCacheDirectory(d: Dialog, chosen: Option<string>, currentParent: string): (r: Dialog)
    ensures r.(newCramCacheDirectory := d.newCramCacheDirectory) == d
    ensures chosen.Some? && chosen.value != currentParent ==> r.newCramCacheDirectory == Some(IgvChild(chosen.value))
    ensures chosen.None? || chosen.value == currentParent ==> r == d
  {
    if chosen.Some? && chosen.value != currentParent then d.(newCramCacheDirectory := Some(IgvChild(chosen.value))) else d
  }

  // ---------------------------------------------------------- dispatch

  /** One user interaction with a widget of the dialog. */
  datatype Action =
    | IntField(setting: IntSetting, boxes: IntSetting -> string, trigger: Trigger)
    | NumberField(numberSetting: NumberSetting, text: string, trigger: Trigger)
    | SequenceResolutionField(text: string, trigger: Trigger)
    | DbPortField(text: string)
    | Checkbox(key: Key, ticked: bool)
    | NegatedCheckbox(key: Key, ticked: bool)
    | OverlayTracksCheckbox(ticked: bool)
    | ProxyCheckbox(key: Key, ticked: bool)
    | AttributeDisplayCheckbox(ticked: bool)
    | ShadeBasesCheckbox(ticked: bool)
    | TextField(key: Key, text: string, trims: bool)
    | OverlayAttributeField(text: string, trigger: Trigger)
    | ProxyTextField(key: Key, text: string)
    | ProxyPasswordField(encoded: string)
    | WhitelistArea(text: string)
    | HiddenTagsField(text: string)
    | ProbeFileButton(chosen: Option<string>)
    | ResetServersButton

  /** The keys an action may stage. */
  function Touched(a: Action): set<Key> {
    match a
    case IntField(s, _, _) => {IntKey(s)}
    case NumberField(s, _, _) => {NumberKey(s)}
    case SequenceResolutionField(_, _) => {MaxSequenceResolution}
    case DbPortField(_) => {DbPort}
    case Checkbox(k, _) => {k}
    case NegatedCheckbox(k, _) => {k}
    case OverlayTracksCheckbox(_) => {OverlayMutationTracks}
    case ProxyCheckbox(k, _) => {k}
    case AttributeDisplayCheckbox(_) => {ShowAttributeViews}
    case ShadeBasesCheckbox(_) => {ShadeBases}
    case TextField(k, _, _) => {k}
    case OverlayAttributeField(_, _) => {OverlayAttribute}
    case ProxyTextField(k, _) => {k}
    case ProxyPasswordField(_) => {ProxyPassword}
    case WhitelistArea(_) => {ProxyWhitelist}
    case HiddenTagsField(_) => {HiddenTags}
    case ProbeFileButton(_) => {ProbeMappingFile}
    case ResetServersButton => {GenomesServerUrl, DataServerUrl}
  }

  /** The reset button is usable only while both server URLs are stored. */
  predicate Allowed(store: Store, a: Action) {
    a.ResetServersButton? ==> GenomesServerUrl in store && DataServerUrl in store
  }

  /**
   * Run one handler. No handler writes the store, un-stages a key, stages a
   * key outside its own, clears a dirty flag or sets the validity flag.
   */
  function Apply(d: Dialog, a: Action, parse: Parsers): (r: Reaction)
    requires Allowed(d.store, a)
    ensures Evolves(d, r.dialog, Touched(a))
  {
    if a.IntField? || a.NumberField? || a.SequenceResolutionField? || a.DbPortField? then ApplyNumeric(d, a, parse)
    else if a.TextField? || a.OverlayAttributeField? || a.ProxyTextField? || a.ProxyPasswordField? || a.ProbeFileButton? then ApplyText(d, a)
    else if a.WhitelistArea? || a.HiddenTagsField? || a.ResetServersButton? then ApplyListOrReset(d, a)
    else ApplyCheckbox(d, a)
  }

  function ApplyNumeric(d: Dialog, a: Action, parse: Parsers): (r: Reaction)
    requires a.IntField? || a.NumberField? || a.SequenceResolutionField? || a.DbPortField?
    ensures Evolves(d, r.dialog, Touched(a))
  {
    match a
    case IntField(s, boxes, trigger) => EditInt(d, s, boxes, trigger)
    case NumberField(s, text, trigger) => EditNumber(d, s, text, trigger, NumberParserFor(s, parse))
    case SequenceResolutionField(text, trigger) => EditSequenceResolution(d, text, trigger, parse.parseFloat)
    case DbPortField(text) => EditDbPort(d, text)
  }

  function ApplyText(d: Dialog, a: Action): (r: Reaction)
    requires a.TextField? || a.OverlayAttributeField? || a.ProxyTextField? || a.ProxyPasswordField? || a.ProbeFileButton?
    ensures Evolves(d, r.dialog, Touched(a))
  {
    match a
    case TextField(k, text, trims) =>
      assert Touched(a) == {k};
      EditText(d, k, text, trims)
    case OverlayAttributeField(text, trigger) =>
      assert Touched(a) == {OverlayAttribute};
      EditOverlayAttribute(d, text, trigger)
    case ProxyTextField(k, text) =>
      assert Touched(a) == {k};
      EditProxyText(d, k, text)
    case ProxyPasswordField(encoded) =>
      assert Touched(a) == {ProxyPassword};
      EditProxyPassword(d, encoded)
    case ProbeFileButton(chosen) =>
      assert Touched(a) == {ProbeMappingFile};
      BrowseProbeFile(d, chosen)
  }

  function ApplyListOrReset(d: Dialog, a: Action): (r: Reaction)
    requires a.WhitelistArea? || a.HiddenTagsField? || a.ResetServersButton?
    requires Allowed(d.store, a)
    ensures Evolves(d, r.dialog, Touched(a))
  {
    match a
    case WhitelistArea(text) =>
      assert Touched(a) == {ProxyWhitelist};
      EditWhitelist(d, text)
    case HiddenTagsField(text) =>
      assert Touched(a) == {HiddenTags};
      EditHiddenTags(d, text)
    case ResetServersButton =>
      assert Touched(a) == {GenomesServerUrl, DataServerUrl};
      ResetServers(d)
  }

  function ApplyCheckbox(d: Dialog, a: Action): (r: Reaction)
    requires a.Checkbox? || a.NegatedCheckbox? || a.OverlayTracksCheckbox? || a.ProxyCheckbox?
             || a.AttributeDisplayCheckbox? || a.ShadeBasesCheckbox?
    ensures Evolves(d, r.dialog, Touched(a))
  {
    match a
    case Checkbox(k, ticked) =>
      assert Touched(a) == {k};
      ToggleBox(d, k, ticked)
    case NegatedCheckbox(k, ticked) =>
      assert Touched(a) == {k};
      ToggleNegatedBox(d, k, ticked)
    case OverlayTracksCheckbox(ticked) =>
      assert Touched(a) == {OverlayMutationTracks};
      ToggleOverlayTracks(d, ticked)
    case ProxyCheckbox(k, ticked) =>
      assert Touched(a) == {k};
      ToggleProxyOption(d, k, ticked)
    case AttributeDisplayCheckbox(ticked) =>
      assert Touched(a) == {ShowAttributeViews};
      ToggleAttributeDisplay(d, ticked)
    case ShadeBasesCheckbox(ticked) =>
      assert Touched(a) == {ShadeBases};
      ToggleShadeBases(d, ticked)
  }

  /** The dialog after a sequence of interactions. */
  function Replay(d: Dialog, actions: seq<Action>, parse: Parsers): (r: Dialog)
    requires forall i :: 0 <= i < |actions| ==> Allowed(d.store, actions[i])
    ensures r.store == d.store
    ensures Pending(d.store, d.ledger) ==> Pending(r.store, r.ledger)
    ensures d.ledger.Keys <= r.ledger.Keys
    ensures r.inputValidated ==> d.inputValidated
    ensures forall k :: k in r.ledger && k !in d.ledger ==> exists i :: 0 <= i < |actions| && k in Touched(actions[i])
    decreases |actions|
  {
    if |actions| == 0 then d
    else
      var next := Apply(d, actions[0], parse).dialog;
      var r := Replay(next, actions[1..], parse);
      assert forall k :: k in r.ledger && k !in next.ledger ==> exists i :: 1 <= i < |actions| && k in Touched(actions[i]) by {
        forall k | k in r.ledger && k !in next.ledger
          ensures exists i :: 1 <= i < |actions| && k in Touched(actions[i])
        {
          var j :| 0 <= j < |actions[1..]| && k in Touched(actions[1..][j]);
          assert actions[1..][j] == actions[j + 1];
        }
      }
      r
  }
}
