/**
 * The public display page: the gate that plays the notification sound once per new
 * call, the flags that open it, and the ticket text.
 */
module Display {
  import opened Wrappers
  import opened Text
  import QueueContext

  type Call = QueueContext.Call

  /**
   * The sound effect's condition: a call is shown, sound is on, the user has interacted,
   * and the call's id is not the id last played.
   */
  predicate ShouldPlay(lastCall: Option<Call>, playSound: bool, hasInteracted: bool, played: Option<Call>)
    ensures ShouldPlay(lastCall, playSound, hasInteracted, played) ==> lastCall.Some? && lastCall != played
  {
    && lastCall.Some?
    && playSound
    && hasInteracted
    && (played.None? || played.value.id != lastCall.value.id)
  }

  /** Right after a play the call is recorded, so the effect re-run on it plays nothing. */
  lemma NoReplayOfPlayedCall(lastCall: Option<Call>, playSound: bool, hasInteracted: bool, played: Option<Call>)
    requires ShouldPlay(lastCall, playSound, hasInteracted, played)
    ensures !ShouldPlay(lastCall, playSound, hasInteracted, lastCall)
  {
  }

  /**
   * A call that arrives while muted or before any interaction is not recorded, and it
   * plays as soon as the gate opens if it is still the current call.
   */
  lemma DeferredPlay(c: Call, playSound: bool, hasInteracted: bool, played: Option<Call>)
    requires !playSound || !hasInteracted
    requires played.None? || played.value.id != c.id
    ensures !ShouldPlay(Some(c), playSound, hasInteracted, played)
    ensures ShouldPlay(Some(c), true, true, played)
  {
  }

  /** One run of the effect: what is on screen and the two flags at that moment. */
  datatype Render = Render(lastCall: Option<Call>, playSound: bool, hasInteracted: bool)

  /** The call recorded after a series of effect runs. */
  function PlayedAfter(played: Option<Call>, renders: seq<Render>): (r: Option<Call>)
    ensures r == played || exists i :: 0 <= i < |renders| && renders[i].lastCall == r
    decreases |renders|
  {
    if renders == [] then played
    else
      var prefix := renders[..|renders| - 1];
      assert forall i :: 0 <= i < |prefix| ==> prefix[i] == renders[i];
      var before := PlayedAfter(played, prefix);
      var x := renders[|renders| - 1];
      if ShouldPlay(x.lastCall, x.playSound, x.hasInteracted, before) then x.lastCall else before
  }

  /** The calls whose sound is played during a series of effect runs, in order. */
  function Sounds(played: Option<Call>, renders: seq<Render>): (s: seq<Call>)
    ensures |s| <= |renders|
    ensures forall c :: c in s ==> exists i :: 0 <= i < |renders| && renders[i].lastCall == Some(c)
    decreases |renders|
  {
    if renders == [] then []
    else
      var prefix := renders[..|renders| - 1];
      assert forall i :: 0 <= i < |prefix| ==> prefix[i] == renders[i];
      var before := PlayedAfter(played, prefix);
      var x := renders[|renders| - 1];
      Sounds(played, prefix)
        + if ShouldPlay(x.lastCall, x.playSound, x.hasInteracted, before) then [x.lastCall.value] else []
  }

  /**
   * One more effect run is one more step: `DisplayPage.SoundEffect` performs exactly this
   * step on its `lastCallRef`, so a run of it from `played` ends at `PlayedAfter(played, …)`
   * and sounds `Sounds(played, …)`.
   */
  lemma RenderOneMore(played: Option<Call>, renders: seq<Render>, x: Render)
    ensures var before := PlayedAfter(played, renders);
      var plays := ShouldPlay(x.lastCall, x.playSound, x.hasInteracted, before);
      && PlayedAfter(played, renders + [x]) == (if plays then x.lastCall else before)
      && Sounds(played, renders + [x]) == Sounds(played, renders) + (if plays then [x.lastCall.value] else [])
  {
    assert (renders + [x])[..|renders|] == renders;
  }

  /**
   * Over any series of renders the recorded call is the last one played, and no two
   * consecutive sounds are for the same call id: a call is announced once until another
   * call has been announced.
   */
  lemma {:induction false} SoundsNeverRepeat(played: Option<Call>, renders: seq<Render>)
    ensures var s := Sounds(played, renders);
      && (s == [] ==> PlayedAfter(played, renders) == played)
      && (s != [] ==> PlayedAfter(played, renders) == Some(s[|s| - 1]))
      && (s != [] && played.Some? ==> s[0].id != played.value.id)
      && (forall i :: 0 < i < |s| ==> s[i - 1].id != s[i].id)
    decreases |renders|
  {
    if renders != [] {
      var prefix := renders[..|renders| - 1];
      SoundsNeverRepeat(played, prefix);
      var s0 := Sounds(played, prefix);
      var s := Sounds(played, renders);
      if |s| > |s0| {
        assert s[..|s0|] == s0;
      } else {
        assert s == s0;
      }
    }
  }

  /** The ticket shown: the number padded to two digits, or "00" with no call. */
  function TicketText(lastCall: Option<Call>): (t: string)
    ensures lastCall.None? ==> t == "00"
    ensures |t| >= 2
    ensures lastCall.Some? && 0 <= lastCall.value.number ==>
      (forall i :: 0 <= i < |t| ==> IsDigit(t[i])) && ParseDigits(t) == lastCall.value.number
  {
    match lastCall
    case None => "00"
    case Some(c) =>
      if c.number >= 0 then PaddedNatReadsBack(c.number, 2); PadStart(IntToString(c.number), 2, '0')
      else PadStart(IntToString(c.number), 2, '0')
  }

  /** A one-digit ticket gets a leading zero; longer ones are shown as they are. */
  lemma TicketTextPadding(c: Call)
    requires c.number >= 0
    ensures c.number < 10 ==> TicketText(Some(c)) == ['0', Digit(c.number)]
    ensures c.number >= 10 ==> TicketText(Some(c)) == NatToString(c.number)
  {
  }

  /** The page's own state: the two flags and the ref holding the call last played. */
  class DisplayPage {
    var playSound: bool
    var hasInteracted: bool
    var lastCallRef: Option<Call>

    constructor ()
      ensures playSound && !hasInteracted && lastCallRef == None
    {
      playSound := true;
      hasInteracted := false;
      lastCallRef := None;
    }

    /**
     * The sound effect, run whenever the call or a flag changes; `played` is whether it
     * sounded. Each run is one step of `PlayedAfter` / `Sounds` (lemma `RenderOneMore`).
     */
    method SoundEffect(lastCall: Option<Call>) returns (played: bool)
      modifies this`lastCallRef
      ensures played == ShouldPlay(lastCall, playSound, hasInteracted, old(lastCallRef))
      ensures lastCallRef == if played then lastCall else old(lastCallRef)
    {
      if lastCall.None? || !playSound || !hasInteracted
         || (lastCallRef.Some? && lastCallRef.value.id == lastCall.value.id) {
        return false;
      }
      lastCallRef := lastCall;
      played := true;
    }

    /** The sound button. */
    method ToggleSound()
      modifies this`playSound
      ensures playSound == !old(playSound)
    {
      playSound := !playSound;
    }

    /** The effect on the fullscreen state: entering fullscreen latches `hasInteracted`. */
    method FullscreenChanged(isFullscreen: bool)
      modifies this`hasInteracted
      ensures hasInteracted == (old(hasInteracted) || isFullscreen)
    {
      if isFullscreen && !hasInteracted {
        hasInteracted := true;
      }
    }

    /** The fullscreen button: toggles fullscreen (not modelled) and latches `hasInteracted`. */
    method HandleFullscreen()
      modifies this`hasInteracted
      ensures hasInteracted
    {
      hasInteracted := true;
    }
  }
}
