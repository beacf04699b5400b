/** The three response buttons of a session: which one is highlighted, which shows a spinner, and the
    pending state kept around the update request. */
module ResponseControls {
  import opened Wrappers
  import opened Schema

  datatype Variant = Default | Secondary | Destructive | Outline

  /** `getButtonVariant`: the button of the current response is filled in its status colour; the
      others are outlined. */
  function ButtonVariant(current: Option<ResponseStatus>, button: ResponseStatus): (v: Variant)
    ensures v == Outline <==> current != Some(button)
  {
    if current == Some(button) then
      if button == Coming then Default else if button == Tentative then Secondary else Destructive
    else Outline
  }

  /** `showLoader`: the spinner is on the button whose status is pending, while the request runs. */
  function ShowLoader(isPending: bool, pendingResponse: Option<ResponseStatus>, button: ResponseStatus): bool {
    isPending && pendingResponse == Some(button)
  }

  /** With a current response exactly one button is highlighted, in that response's colour; without one,
      none is. */
  lemma OneHighlighted(current: Option<ResponseStatus>)
    ensures current.None? ==> forall b :: ButtonVariant(current, b) == Outline
    ensures current == Some(Coming) ==> ButtonVariant(current, Coming) == Default
    ensures current == Some(Tentative) ==> ButtonVariant(current, Tentative) == Secondary
    ensures current == Some(NotComing) ==> ButtonVariant(current, NotComing) == Destructive
    ensures forall a, b :: ButtonVariant(current, a) != Outline && ButtonVariant(current, b) != Outline ==> a == b
  {
  }

  /** At most one spinner, and none while nothing is pending. */
  lemma OneSpinner(isPending: bool, pendingResponse: Option<ResponseStatus>)
    ensures forall a, b :: ShowLoader(isPending, pendingResponse, a) && ShowLoader(isPending, pendingResponse, b) ==> a == b
    ensures !isPending ==> forall b :: !ShowLoader(isPending, pendingResponse, b)
  {
  }

  /** A call of the update mutation. */
  datatype Mutation = Mutation(sessionId: Id, status: ResponseStatus)

  /** One mounted `ResponseControls`: its props fixed, its pending state changing. `isPending` is the
      mutation's in-flight flag; `calls` records every mutation call made. */
  class Controls {
    const sessionId: Id
    const currentResponse: Option<ResponseStatus>
    const disabled: bool
    var pendingResponse: Option<ResponseStatus>
    var isPending: bool
    var calls: seq<Mutation>

    /** A status is pending exactly while its request runs, and only the last call can be running. */
    ghost predicate Valid()
      reads this
    {
      && (pendingResponse.Some? <==> isPending)
      && (isPending ==> |calls| > 0 && calls[|calls| - 1] == Mutation(sessionId, pendingResponse.value))
    }

    /** All three buttons are disabled while the props say so or a request runs. */
    predicate ButtonsDisabled()
      reads this
    {
      disabled || isPending
    }

    constructor (sessionId: Id, currentResponse: Option<ResponseStatus>, disabled: bool)
      ensures Valid()
      ensures this.sessionId == sessionId && this.currentResponse == currentResponse && this.disabled == disabled
      ensures pendingResponse == None && !isPending && calls == []
    {
      this.sessionId := sessionId;
      this.currentResponse := currentResponse;
      this.disabled := disabled;
      pendingResponse := None;
      isPending := false;
      calls := [];
    }

    /** `handleResponseChange(status)` up to its `await`: ignored while disabled or for the current
        response; otherwise the status becomes pending and the mutation is called once with
        `{sessionId, status}`. Its callers are the three buttons, which are disabled while a request
        runs. */
    method HandleResponseChange(status: ResponseStatus)
      requires Valid() && !isPending
      modifies this
      ensures Valid()
      ensures disabled || currentResponse == Some(status) ==>
        pendingResponse == old(pendingResponse) && isPending == old(isPending) && calls == old(calls)
      ensures !disabled && currentResponse != Some(status) ==>
        pendingResponse == Some(status) && isPending && calls == old(calls) + [Mutation(sessionId, status)]
    {
      if disabled || currentResponse == Some(status) {
        return;
      }
      pendingResponse := Some(status);
      calls := calls + [Mutation(sessionId, status)];
      isPending := true;
    }

    /** The rest of `handleResponseChange`, once the request settles: whether it succeeded or failed,
        the `finally` block clears the pending status. */
    method Settle(failed: bool)
      requires Valid()
      modifies this
      ensures Valid()
      ensures pendingResponse == None && !isPending && calls == old(calls)
    {
      isPending := false;
      pendingResponse := None;
    }

    /** A click on one of the buttons: nothing happens while the buttons are disabled. */
    method Click(status: ResponseStatus)
      requires Valid()
      modifies this
      ensures Valid()
      ensures old(ButtonsDisabled()) || currentResponse == Some(status) ==>
        pendingResponse == old(pendingResponse) && isPending == old(isPending) && calls == old(calls)
      ensures !old(ButtonsDisabled()) && currentResponse != Some(status) ==>
        pendingResponse == Some(status) && isPending && calls == old(calls) + [Mutation(sessionId, status)]
    {
      if ButtonsDisabled() {
        return;
      }
      HandleResponseChange(status);
    }
  }

  /** A click followed by the request settling leaves nothing pending and one more call on record,
      whatever the outcome; a click on the current response calls nothing. */
  method ClickAndSettle(c: Controls, status: ResponseStatus, failed: bool)
    requires c.Valid() && !c.disabled && !c.isPending
    modifies c
    ensures c.Valid() && c.pendingResponse == None && !c.isPending
    ensures c.currentResponse != Some(status) ==> c.calls == old(c.calls) + [Mutation(c.sessionId, status)]
    ensures c.currentResponse == Some(status) ==> c.calls == old(c.calls)
  {
    c.Click(status);
    if c.isPending {
      c.Settle(failed);
    }
  }
}
