/**
 * The status of an order and its storage encoding (src/orders.rs:67-103):
 * a closed enumeration written to the `status` column as a lower-case,
 * hyphenated text and read back with a decoder that never fails.
 */
module OrderStatuses {

  datatype OrderStatus = Pending | InProgress | Complete | Canceled

  /** The four texts the encoder produces. */
  const Canonical: set<string> := {"pending", "in-progress", "complete", "canceled"}

  /** The status an order has when none was given. */
  function Default(): (s: OrderStatus)
    ensures ToText(s) == "pending"
  {
    Pending
  }

  /** Encodes a status as the text stored in the `status` column. */
  function ToText(s: OrderStatus): (t: string)
    ensures t in Canonical
    ensures s == Pending <==> t == "pending"
    ensures s == InProgress <==> t == "in-progress"
    ensures s == Complete <==> t == "complete"
    ensures s == Canceled <==> t == "canceled"
  {
    match s
    case Pending => "pending"
    case InProgress => "in-progress"
    case Complete => "complete"
    case Canceled => "canceled"
  }

  /**
   * Decodes a stored text. The four canonical texts decode to their status;
   * every other text silently decodes to the default status.
   */
  function FromText(t: string): (s: OrderStatus)
    ensures ToText(s) == t <==> t in Canonical
    ensures t !in Canonical ==> s == Default()
  {
    if t == "pending" then Pending
    else if t == "in-progress" then InProgress
    else if t == "complete" then Complete
    else if t == "canceled" then Canceled
    else Default()
  }

  /** Decoding the encoding of a status gives the status back. */
  lemma RoundTrip(s: OrderStatus)
    ensures FromText(ToText(s)) == s
  {
    match s
    case Pending =>
    case InProgress =>
    case Complete =>
    case Canceled =>
  }

  /** Distinct statuses are stored as distinct texts. */
  lemma ToTextInjective(a: OrderStatus, b: OrderStatus)
    ensures ToText(a) == ToText(b) ==> a == b
  {
    RoundTrip(a);
    RoundTrip(b);
  }

  /** Every canonical text is the encoding of exactly the status it decodes to. */
  lemma CanonicalRoundTrip(t: string)
    requires t in Canonical
    ensures ToText(FromText(t)) == t
  {
  }

  /** A text the encoder never produces decodes to the default status, so a decoded `Pending` does not say the text was "pending". */
  lemma UnknownTextIsPending(t: string)
    requires t !in Canonical
    ensures FromText(t) == Pending
    ensures ToText(FromText(t)) != t
  {
  }
}
