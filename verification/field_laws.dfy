/**
 * Properties of the field handlers that relate several calls or pin down
 * what a field accepts.
 */
module FieldLaws {
  import opened Wrappers
  import opened Ledger
  import opened PrefKeys
  import opened JavaInts
  import opened JavaStrings
  import opened Fields

  /** A printed Java `int` carries no blank at either end. */
  lemma FormatIntHasNoBlankEnds(n: int)
    ensures NoBlankEnds(FormatInt(n))
  {
    var r := FormatInt(n);
    if |r| > 1 {
      assert IsDigit(r[|r| - 1]);
    }
  }

  /**
   * A trimming integer field given a printed number with blank padding
   * stages exactly the printed number when it meets the field's bound and
   * otherwise stages nothing and, unless the field is a junction field,
   * clears the validity flag.
   */
  lemma TrimmedFieldAcceptsPaddedNumber(d: Dialog, s: IntSetting, boxes: IntSetting -> string,
                                        trigger: Trigger, n: int, pad1: string, pad2: string)
    requires Trims(s) && IsInt32(n)
    requires AllBlank(pad1) && AllBlank(pad2)
    requires boxes(s) == pad1 + FormatInt(n) + pad2
    ensures var r := EditInt(d, s, boxes, trigger);
            && (Within(n, BoundOf(s)) ==> r.dialog.ledger == Put(d.store, d.ledger, IntKey(s), Some(FormatInt(n))))
            && (!Within(n, BoundOf(s)) ==> r.dialog.ledger == d.ledger && r.dialog.inputValidated == (d.inputValidated && !Invalidates(s)))
  {
    assert IntText(s, boxes) == FormatInt(n) by {
      assert ReadsBox(s) == s;
      FormatIntHasNoBlankEnds(n);
      TrimOfPadded(FormatInt(n), pad1, pad2);
    }
    assert IntAccepted(s, boxes) == Within(n, BoundOf(s)) by {
      ParseFormatRoundTrip(n);
    }
  }

  /** The fields with a positive bound all trim, clear the validity flag and warn on failure. */
  lemma PositiveFieldsPolicy(d: Dialog, s: IntSetting, trigger: Trigger)
    requires BoundOf(s) == Positive
    ensures s in {LargeIndels, SmallIndels, DownsampleWindow, DownsampleCount}
    ensures Trims(s) && ReadsBox(s) == s && Invalidates(s)
    ensures IntFailure(d, s, trigger) == Warn(IntMessage(s))
  {
  }

  /** A trimming field reading its own box, given a printed number, parses exactly that number. */
  lemma PrintedNumberParses(s: IntSetting, boxes: IntSetting -> string, n: int)
    requires Trims(s) && ReadsBox(s) == s
    requires IsInt32(n) && boxes(s) == FormatInt(n)
    ensures IntText(s, boxes) == FormatInt(n)
    ensures IntAccepted(s, boxes) <==> Within(n, BoundOf(s))
  {
    FormatIntHasNoBlankEnds(n);
    assert FormatInt(n) == "" + FormatInt(n) + "";
    TrimOfPadded(FormatInt(n), "", "");
    ParseFormatRoundTrip(n);
  }

  /** The positive-threshold fields accept a printed number exactly when it is positive. */
  lemma PositiveThresholdsAcceptExactlyPositive(d: Dialog, s: IntSetting, boxes: IntSetting -> string,
                                                trigger: Trigger, n: int)
    requires BoundOf(s) == Positive
    requires IsInt32(n) && boxes(s) == FormatInt(n)
    ensures var r := EditInt(d, s, boxes, trigger);
            && (n > 0 ==> r.dialog.ledger == Put(d.store, d.ledger, IntKey(s), Some(FormatInt(n))) && r.feedback == Quiet)
            && (n <= 0 ==> r.dialog.ledger == d.ledger && !r.dialog.inputValidated && r.feedback == Warn(IntMessage(s)))
  {
    PositiveFieldsPolicy(d, s, trigger);
    PrintedNumberParses(s, boxes, n);
  }

  /** The clipping threshold accepts a printed number exactly when it is not negative. */
  lemma ClippingAcceptsExactlyNonNegative(d: Dialog, boxes: IntSetting -> string, trigger: Trigger, n: int)
    requires IsInt32(n) && boxes(Clipping) == FormatInt(n)
    ensures var r := EditInt(d, Clipping, boxes, trigger);
            && (n >= 0 ==> r.dialog.ledger == Put(d.store, d.ledger, ClippingThreshold, Some(FormatInt(n))))
            && (n < 0 ==> r.dialog.ledger == d.ledger && !r.dialog.inputValidated)
  {
    assert boxes(Clipping) == "" + FormatInt(n) + "";
    assert Trims(Clipping) && BoundOf(Clipping) == NonNegative && Invalidates(Clipping);
    TrimmedFieldAcceptsPaddedNumber(d, Clipping, boxes, trigger, n, "", "");
  }

  /**
   * The trigger only decides whether a failing junction field complains;
   * for every other integer field Enter and focus loss do the same thing.
   */
  lemma TriggerMattersOnlyForJunctionFeedback(d: Dialog, s: IntSetting, boxes: IntSetting -> string)
    ensures EditInt(d, s, boxes, Confirm).dialog == EditInt(d, s, boxes, FocusLost).dialog
    ensures s != JunctionFlanking && s != JunctionCoverage ==> EditInt(d, s, boxes, Confirm) == EditInt(d, s, boxes, FocusLost)
  {
  }

  /**
   * The default track height handler reads the chart track height box:
   * its outcome does not depend on its own box, and what it stages under
   * the track height key is the chart box's text.
   */
  lemma TrackHeightReadsChartBox(d: Dialog, boxes: IntSetting -> string, others: IntSetting -> string, trigger: Trigger)
    requires boxes(DefaultChartTrackHeight) == others(DefaultChartTrackHeight)
    ensures EditInt(d, DefaultTrackHeight, boxes, trigger) == EditInt(d, DefaultTrackHeight, others, trigger)
    ensures IntAccepted(DefaultTrackHeight, boxes) ==>
              EditInt(d, DefaultTrackHeight, boxes, trigger).dialog.ledger
              == Put(d.store, d.ledger, TrackHeight, Some(boxes(DefaultChartTrackHeight)))
  {
  }

  /** A padded number is accepted by a field that trims its text ... */
  lemma TrimmingFieldAcceptsPadding(store: Store)
    ensures EditInt(Open(store), MappingQuality, _ => " 5", Confirm).dialog.ledger
            == Put(store, map[], QualityThreshold, Some("5"))
  {
    assert AllBlank(" ") && AllBlank("");
    assert " 5" == " " + FormatInt(5) + "" by {
      assert NatDigits(5) == "5";
    }
    TrimmedFieldAcceptsPaddedNumber(Open(store), MappingQuality, _ => " 5", Confirm, 5, " ", "");
  }

  /** ... and refused, with the dialog marked invalid, by one that does not. */
  lemma PlainFieldRefusesPadding(store: Store)
    ensures var r := EditInt(Open(store), GeneListFlanking, _ => " 5", Confirm);
            r.dialog.ledger == map[] && !r.dialog.inputValidated
  {
    assert !IsDigit(" 5"[0]) && !IsSign(" 5"[0]);
  }

  /**
   * Database port: whatever is typed, a parseable port is staged, and the
   * blank-text branch agrees with the malformed-text branch.
   */
  lemma DbPortAlwaysStagesAPort(d: Dialog, text: string)
    requires DbPort !in d.ledger
    ensures var c := Committed(EditDbPort(d, text).dialog, DbPort);
            && c.Some? && ParseInt(c.value).Some?
            && (AllBlank(text) ==> c == Some("-1"))
  {
    if AllBlank(text) {
      assert Trim(text) == "" by {
        assert text == text + "";
        assert AllBlank("");
        TrimOfPadded("", text, "");
        assert text + "" + "" == text;
      }
    }
  }

  /**
   * A negated checkbox shows the negation of the stored flag and stages the
   * negation of its state: left as loaded it stages nothing; flipped, it
   * commits the opposite of the stored flag.
   */
  lemma NegatedBoxRoundTrip(d: Dialog, k: Key, stored: bool)
    requires Get(d.store, k) == Some(BoolText(stored)) && k !in d.ledger
    ensures ToggleNegatedBox(d, k, NegatedBoxShown(d.store, k)).dialog == d
    ensures Committed(ToggleNegatedBox(d, k, !NegatedBoxShown(d.store, k)).dialog, k) == Some(BoolText(!stored))
  {
    BoolTextRoundTrip(stored);
  }

  /**
   * The shade-bases box decides on unticking from the store, not the
   * ledger: with NONE stored, ticking then unticking commits QUALITY.
   */
  lemma ShadeTickThenUntickCommitsQuality(store: Store)
    requires Get(store, ShadeBases) == Some("NONE")
    ensures var d1 := ToggleShadeBases(Open(store), true).dialog;
            Committed(ToggleShadeBases(d1, false).dialog, ShadeBases) == Some("QUALITY")
  {
  }

  /**
   * Unticking and re-ticking "use proxy" when it is stored as true commits
   * "false": the second `put` equals the store and is dropped.
   */
  lemma ProxyToggleBackCommitsStaleValue(store: Store)
    requires Get(store, UseProxy) == Some("true")
    ensures var d1 := ToggleProxyOption(Open(store), UseProxy, false).dialog;
            var d2 := ToggleProxyOption(d1, UseProxy, true).dialog;
            d2.proxySettingsChanged && Committed(d2, UseProxy) == Some("false")
  {
  }

  /** Any sequence of interactions on a fresh dialog stages only genuine changes to keys it touched. */
  lemma ReplayStagesOnlyTouchedChanges(store: Store, actions: seq<Action>, parse: Parsers)
    requires forall i :: 0 <= i < |actions| ==> Allowed(store, actions[i])
    ensures var d := Replay(Open(store), actions, parse);
            && d.store == store
            && Pending(store, d.ledger)
            && forall k :: k in d.ledger ==> exists i :: 0 <= i < |actions| && k in Touched(actions[i])
  {
  }
}
