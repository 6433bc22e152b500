/** Properties of OK and Cancel, alone and after a sequence of edits. */
module CommitLaws {
  import opened Wrappers
  import opened Ledger
  import opened PrefKeys
  import opened JavaStrings
  import opened Fields
  import opened Commit

  /**
   * A valid OK on a ledger of genuine changes changes exactly the staged
   * keys among the non-variant settings, except that an empty string staged
   * for a key the store lacks leaves it unset.
   */
  lemma OkChangesExactlyStagedKeys(d: Dialog, inputs: OkInputs, codec: ColorCodec, k: Key)
    requires d.inputValidated && Pending(d.store, d.ledger)
    requires k !in VcfKeys
    ensures Get(Ok(d, inputs, codec).dialog.store, k) != Get(d.store, k)
            <==> k in d.ledger && !(d.ledger[k] == Some("") && k !in d.store)
  {
  }

  /** Ticking the port box with a port-enable edit but no staged port number makes OK throw after writing the store. */
  lemma EnablingPortWithoutNumberFails(d: Dialog, inputs: OkInputs, codec: ColorCodec)
    requires d.inputValidated && inputs.portBoxTicked
    requires PortEnabled in d.ledger && PortNumber !in d.ledger
    ensures var r := Ok(d, inputs, codec);
            r.Failed? && Get(r.dialog.store, PortEnabled) == Written(d.ledger[PortEnabled])
  {
    var ledger := CommitLedger(d, inputs, codec);
    CommitKeysAreNotVcfKeys();
    assert PortStaged(ledger) && StagedPort(ledger).None?;
  }

  /**
   * The het-var colour test compares the home-reference chooser with the
   * stored het-var colour: when those agree, a new het-var colour is not
   * staged, whatever the het-var chooser shows.
   */
  lemma HetVarEditLostWhenStoredMatchesHomRef(store: Store, ledger: Staged, choice: VcfChoice, codec: ColorCodec)
    requires StoredColor(store, HetVarColor, codec) == Some(choice.homRef)
    requires HetVarColor !in ledger
    ensures HetVarColor !in CheckVcfColors(store, ledger, choice, codec)
  {
    assert HetVarColor in ColorKeys;
  }

  /** The het-var edit is lost even when the chooser shows a colour different from the stored one. */
  lemma HetVarEditLostExample()
    ensures var black := Rgb(0, 0, 0);
            var red := Rgb(255, 0, 0);
            var codec := ColorCodec(_ => Some(black), (c: Color) => if c == red then "255,0,0" else "0,0,0");
            var store := map[HomRefColor := "0,0,0", HetVarColor := "0,0,0"];
            var choice := VcfChoice(black, red, black, black, black, black, false);
            HetVarColor !in CheckVcfColors(store, map[], choice, codec)
  {
    var black := Rgb(0, 0, 0);
    var red := Rgb(255, 0, 0);
    var codec := ColorCodec(_ => Some(black), (c: Color) => if c == red then "255,0,0" else "0,0,0");
    var store := map[HomRefColor := "0,0,0", HetVarColor := "0,0,0"];
    var choice := VcfChoice(black, red, black, black, black, black, false);
    HetVarEditLostWhenStoredMatchesHomRef(store, map[], choice, codec);
  }

  /**
   * A rejected edit only delays the commit: OK with invalid input re-arms
   * validation, and pressing OK again commits the same ledger.
   */
  lemma SecondOkCommitsAfterInvalidInput(d: Dialog, inputs: OkInputs, codec: ColorCodec)
    requires !d.inputValidated
    ensures var first := Ok(d, inputs, codec);
            && first.StaysOpen?
            && Ok(first.dialog, inputs, codec) == Finish(d.(inputValidated := true), CommitLedger(d, inputs, codec), inputs)
  {
  }

  /** Cancel after any edits leaves the store as it was when the dialog opened. */
  lemma CancelAfterEditsKeepsStore(store: Store, actions: seq<Action>, parse: Parsers)
    requires forall i :: 0 <= i < |actions| ==> Allowed(store, actions[i])
    ensures Cancel(Replay(Open(store), actions, parse)).dialog.store == store
  {
  }

  /** Unticking and re-ticking "use proxy" when the store holds true leaves "false" staged. */
  lemma ProxyToggleStagesFalse(store: Store, parse: Parsers)
    requires Get(store, UseProxy) == Some("true")
    ensures var d := Replay(Open(store), [ProxyCheckbox(UseProxy, false), ProxyCheckbox(UseProxy, true)], parse);
            d.ledger == map[UseProxy := Some("false")] && d.inputValidated && d.proxySettingsChanged
  {
    var d0 := Open(store);
    var d1 := d0.(ledger := map[UseProxy := Some("false")], proxySettingsChanged := true);
    ProxyUntick(store);
    ProxyRetick(d1);
    ApplyProxyCheckbox(d0, UseProxy, false, parse);
    ApplyProxyCheckbox(d1, UseProxy, true, parse);
    ReplayTwo(d0, ProxyCheckbox(UseProxy, false), ProxyCheckbox(UseProxy, true), parse);
  }

  /** A proxy checkbox runs the proxy-option handler. */
  lemma ApplyProxyCheckbox(d: Dialog, k: Key, ticked: bool, parse: Parsers)
    ensures Apply(d, ProxyCheckbox(k, ticked), parse) == ToggleProxyOption(d, k, ticked)
  {
  }

  /** Unticking "use proxy" on a new dialog over a store reading "true" stages "false". */
  lemma ProxyUntick(store: Store)
    requires Get(store, UseProxy) == Some("true")
    ensures ToggleProxyOption(Open(store), UseProxy, false).dialog
            == Open(store).(ledger := map[UseProxy := Some("false")], proxySettingsChanged := true)
  {
    assert BoolText(false) == "false";
  }

  /** Re-ticking it stages nothing, since "true" is the stored value. */
  lemma ProxyRetick(d: Dialog)
    requires Get(d.store, UseProxy) == Some("true") && d.proxySettingsChanged
    ensures ToggleProxyOption(d, UseProxy, true).dialog == d
  {
    assert BoolText(true) == "true";
  }

  /** Replaying two interactions applies the first, then the second. */
  lemma ReplayTwo(d: Dialog, a: Action, b: Action, parse: Parsers)
    requires Allowed(d.store, a) && Allowed(d.store, b)
    ensures Replay(d, [a, b], parse) == Apply(Apply(d, a, parse).dialog, b, parse).dialog
  {
    var d1 := Apply(d, a, parse).dialog;
    assert [a, b][1..] == [b];
    assert [b][1..] == [];
    assert Replay(d1, [b], parse) == Replay(Apply(d1, b, parse).dialog, [], parse);
  }

  /**
   * OK with valid input commits a lone staged edit of a key outside the
   * port and variant settings; an empty edit unsets the key.
   */
  lemma OkCommitsLoneEdit(d: Dialog, inputs: OkInputs, codec: ColorCodec, k: Key, v: Value)
    requires d.inputValidated && d.ledger == map[k := Some(v)]
    requires k !in VcfKeys && k != PortEnabled && k != PortNumber
    ensures var r := Ok(d, inputs, codec);
            r.Closed? && Get(r.dialog.store, k) == Written(Some(v)) && r.effects.updateProxy == d.proxySettingsChanged
  {
    CommitKeysAreNotVcfKeys();
    assert !PortStaged(CommitLedger(d, inputs, codec));
  }

  /**
   * Unticking and re-ticking "use proxy" when the store holds true, then
   * pressing OK, commits false and updates the proxy settings.
   */
  lemma ProxyToggleThenOkCommitsFalse(store: Store, inputs: OkInputs, codec: ColorCodec, parse: Parsers)
    requires Get(store, UseProxy) == Some("true")
    ensures var d := Replay(Open(store), [ProxyCheckbox(UseProxy, false), ProxyCheckbox(UseProxy, true)], parse);
            var r := Ok(d, inputs, codec);
            && r.Closed?
            && Get(r.dialog.store, UseProxy) == Some("false")
            && r.effects.updateProxy
  {
    var d := Replay(Open(store), [ProxyCheckbox(UseProxy, false), ProxyCheckbox(UseProxy, true)], parse);
    ProxyToggleStagesFalse(store, parse);
    CommitKeysAreNotVcfKeys();
    OkCommitsLoneEdit(d, inputs, codec, UseProxy, "false");
  }

  /** The listener is halted immediately before it is started, and both precede the refresh. */
  lemma EventsHaltBeforeStart(e: Effects)
    requires e.listener.Restart?
    ensures var r := Events(e);
            exists i :: 0 <= i < |r| - 2 && r[i] == HaltListener && r[i + 1] == StartListener(e.listener.port)
  {
    var r := Events(e);
    var start := StartListener(e.listener.port);
    assert HaltListener in r && start in r;
    var i :| 0 <= i < |r| && r[i] == HaltListener;
    var j :| 0 <= j < |r| && r[j] == start;
    HaltThenStartAdjacent(r, i, j);
  }

  /** In step order ending with the refresh, a halt and a start are adjacent and before the end. */
  lemma HaltThenStartAdjacent(r: seq<Event>, i: nat, j: nat)
    requires Ascending(r) && |r| > 0 && r[|r| - 1] == Refresh
    requires i < |r| && r[i] == HaltListener
    requires j < |r| && r[j].StartListener?
    ensures i + 1 == j < |r| - 1
  {
    NextStepNextIndex(r, i, j);
    assert r[j] != r[|r| - 1];
  }
}
