/** The conversation state machine: the transition table, the compare-and-set
    write that guards it, and the orchestrator's intent-driven moves. */
module Conversations {
  datatype State = Lead | Browsing | Checkout | Invoicing | Paid | Cancelled | Support | Escalated

  datatype Intent = CheckoutRequest | ProductInquiry | ImageMatch | SupportFaq | Complaint | OtherIntent

  type Table = map<string, State>

  function ValidTransitions(from: State): set<State> {
    match from
    case Lead => {Browsing, Checkout, Support, Invoicing, Escalated}
    case Browsing => {Checkout, Support, Invoicing, Escalated}
    case Checkout => {Invoicing, Support, Escalated}
    case Invoicing => {Paid, Cancelled, Support, Escalated}
    case Paid => {Browsing, Support, Escalated}
    case Cancelled => {Browsing, Support, Escalated}
    case Support => {Browsing, Checkout, Invoicing, Lead, Escalated}
    case Escalated => {}
  }

  predicate ValidateTransition(from: State, to: State) {
    to in ValidTransitions(from)
  }

  /** One conditional UPDATE: moves `id` from `from` to `to`, or changes nothing
      when the move is illegal or the row has left `from`. */
  function Transition(t: Table, id: string, from: State, to: State): Table {
    if ValidateTransition(from, to) && id in t && t[id] == from then t[id := to] else t
  }

  /** Whether the multi-source form is willing to run at all: every source must
      be able to reach `to`, and there must be one. */
  predicate SourcesLegal(froms: seq<State>, to: State) {
    froms != [] && forall from <- froms :: ValidateTransition(from, to)
  }

  /** The multi-source form used by checkout; `None` is a rejection. */
  function TransitionTo(t: Table, id: string, froms: seq<State>, to: State): (r: (bool, Table)) {
    if SourcesLegal(froms, to) && id in t && t[id] in froms then (true, t[id := to]) else (false, t)
  }

  /** The state an intent asks for, given the state the turn read when it began. */
  function IntentTarget(intent: Intent, current: State): State {
    match intent
    case CheckoutRequest => (
      match current
      case Lead | Browsing | Support => Checkout
      case Paid | Cancelled => Browsing
      case _ => current)
    case ProductInquiry | ImageMatch => (
      match current
      case Lead | Support | Paid | Cancelled => Browsing
      case _ => current)
    case SupportFaq | Complaint => (
      match current
      case Lead | Browsing | Checkout | Paid | Cancelled => Support
      case _ => current)
    case OtherIntent => current
  }

  /** A turn that read `current` when it began writes its move with
      compare-and-set, however stale that read has become. */
  function Converse(t: Table, id: string, current: State, intent: Intent): Table {
    var target := IntentTarget(intent, current);
    if target != current then Transition(t, id, current, target) else t
  }

  /** Every intent-driven move is in the table, and none of them enters or
      leaves INVOICING: only order creation opens that slot and only payment or
      cancellation closes it. */
  lemma IntentMovesAreLegalAndAvoidInvoicing(intent: Intent, current: State)
    ensures var target := IntentTarget(intent, current);
            target != current ==>
              && ValidateTransition(current, target)
              && current !in {Invoicing, Escalated}
              && target !in {Invoicing, Escalated}
  {
  }

  /** A conversational turn never changes whether any conversation is INVOICING,
      whatever state it believed it was in. */
  lemma ConverseKeepsInvoicing(t: Table, id: string, current: State, intent: Intent)
    ensures var u := Converse(t, id, current, intent);
            && u.Keys == t.Keys
            && (forall c <- t :: u[c] == Invoicing <==> t[c] == Invoicing)
  {
    IntentMovesAreLegalAndAvoidInvoicing(intent, current);
  }

  /** The legal moves, target by target. */
  lemma LegalMovesExactly(from: State, to: State)
    ensures ValidateTransition(from, to) <==>
      match to
      case Escalated => from != Escalated
      case Support => from !in {Support, Escalated}
      case Invoicing => from in {Lead, Browsing, Checkout, Support}
      case Checkout => from in {Lead, Browsing, Support}
      case Browsing => from in {Lead, Support, Paid, Cancelled}
      case Lead => from == Support
      case Paid | Cancelled => from == Invoicing
  {
  }

  /** A turn moves its conversation exactly when the row is still in the state the turn
      read: to CHECKOUT for a checkout request of a customer who is not paying, back to
      BROWSING for one whose order is over or who asks for products, to SUPPORT for a
      question or a complaint. Every other row, and every other turn, stays. */
  lemma TurnMovesExactly(t: Table, id: string, current: State, intent: Intent)
    requires id in t
    ensures var u := Converse(t, id, current, intent);
            && (forall c <- t :: c != id ==> c in u && u[c] == t[c])
            && id in u && u[id] == if t[id] != current then t[id] else
                 if intent == CheckoutRequest && current in {Lead, Browsing, Support} then Checkout
                 else if (intent == CheckoutRequest && current in {Paid, Cancelled})
                      || (intent in {ProductInquiry, ImageMatch} && current in {Lead, Support, Paid, Cancelled}) then Browsing
                 else if intent in {SupportFaq, Complaint} && current !in {Invoicing, Support, Escalated} then Support
                 else current
  {
  }

  /** Reachability through legal moves. */
  ghost predicate Path(states: seq<State>) {
    forall i :: 0 <= i < |states| - 1 ==> ValidateTransition(states[i], states[i + 1])
  }

  /** Two INVOICING states on one legal path are separated by a state that
      closed the first invoice: a conversation cannot be invoiced twice in a row. */
  lemma InvoicesAreSeparated(states: seq<State>, i: nat, j: nat)
    requires Path(states)
    requires i < j < |states| && states[i] == Invoicing && states[j] == Invoicing
    ensures i + 1 < j && states[i + 1] in {Paid, Cancelled, Support}
  {
    assert ValidateTransition(states[i], states[i + 1]);
    if states[i + 1] == Escalated {
      assert i + 1 < j;
      assert ValidateTransition(states[i + 1], states[i + 2]);
    }
  }
}
