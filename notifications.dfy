/**
 * The notification bell: the list of pending HR data requests, replaced by
 * each successful poll and pruned after each successful data submission.
 */
module Notifications {
  import opened Wrappers
  import opened Seqs

  /** A pending request for the attendance data of one month, as the strings the backend sent. */
  datatype Notification = Notification(month: string, year: string)

  /** The reply of the notifications endpoint. */
  datatype FetchResponse = FetchResponse(success: bool, data: seq<Notification>)

  /** The reply of the data-submission endpoint. */
  datatype SubmitResponse = SubmitResponse(success: bool, message: string, error: string)

  /** The notification asks for the data of exactly this month and year. */
  predicate ForPeriod(n: Notification, month: string, year: string): (b: bool)
    ensures b <==> n == Notification(month, year)
  {
    n.month == month && n.year == year
  }

  /** Keeps the notifications of any other period. */
  function OtherPeriod(month: string, year: string): Notification -> bool
  {
    (n: Notification) => !ForPeriod(n, month, year)
  }

  /**
   * The list after a successful submission for (`month`, `year`): every
   * notification of that period is gone, not only the one acted on, and all
   * others stay, in their order.
   */
  function WithoutPeriod(ns: seq<Notification>, month: string, year: string): (r: seq<Notification>)
    ensures forall n :: n in r ==> !ForPeriod(n, month, year)
    ensures forall n :: !ForPeriod(n, month, year) ==> multiset(r)[n] == multiset(ns)[n]
    ensures IsSubsequence(r, ns)
    ensures |r| <= |ns|
  {
    Filter(ns, OtherPeriod(month, year))
  }

  /** A list holding no notification of the period is left exactly as it was. */
  lemma WithoutPeriodNoMatch(ns: seq<Notification>, month: string, year: string)
    requires forall n :: n in ns ==> !ForPeriod(n, month, year)
    ensures WithoutPeriod(ns, month, year) == ns
  {
    FilterAll(ns, OtherPeriod(month, year));
  }

  /** Exactly as many entries go as the list holds notifications of the period. */
  lemma {:induction false} WithoutPeriodCount(ns: seq<Notification>, month: string, year: string)
    ensures |WithoutPeriod(ns, month, year)| == |ns| - multiset(ns)[Notification(month, year)]
  {
    if ns != [] {
      WithoutPeriodCount(ns[1..], month, year);
      assert ns == [ns[0]] + ns[1..];
      assert multiset(ns) == multiset{ns[0]} + multiset(ns[1..]);
    }
  }

  /** Removing a period twice removes no more than removing it once. */
  lemma WithoutPeriodIdempotent(ns: seq<Notification>, month: string, year: string)
    ensures WithoutPeriod(WithoutPeriod(ns, month, year), month, year) == WithoutPeriod(ns, month, year)
  {
    FilterIdempotent(ns, OtherPeriod(month, year));
  }

  /** Two requests for March 2024 and one for April: acting on March removes both March entries. */
  lemma RemovesEveryMatchExample()
    ensures WithoutPeriod([Notification("3", "2024"), Notification("4", "2024"), Notification("3", "2024")], "3", "2024")
            == [Notification("4", "2024")]
  {

  }

  /** The bell's state: the pending notifications it lists. */
  class NotificationBell {
    var notifications: seq<Notification>

    constructor ()
      ensures notifications == []
    {
      notifications := [];
    }

    /**
     * One poll of the notifications endpoint (`response` is `None` when the
     * request throws): only a successful reply replaces the list.
     */
    method FetchNotifications(response: Option<FetchResponse>)
      modifies this
      ensures response.Some? && response.value.success ==> notifications == response.value.data
      ensures !(response.Some? && response.value.success) ==> notifications == old(notifications)
    {
      if response.Some? && response.value.success {
        notifications := response.value.data;
      }
    }

    /**
     * Submits the data of (`month`, `year`) (`response` is `None` when the
     * request throws) and returns the text of the alert shown. Only a
     * successful reply changes the list, by dropping every notification of
     * that period.
     */
    method HandleSendData(month: string, year: string, response: Option<SubmitResponse>) returns (alertText: string)
      modifies this
      ensures response.Some? && response.value.success ==>
                notifications == WithoutPeriod(old(notifications), month, year) && alertText == response.value.message
      ensures response.Some? && !response.value.success ==>
                notifications == old(notifications) && alertText == "Error: " + response.value.error
      ensures response.None? ==>
                notifications == old(notifications) && alertText == "Failed to send data. Please try again."
      ensures |notifications| <= |old(notifications)|
      ensures forall n :: n in notifications ==> n in old(notifications)
    {
      match response
      case None =>
        alertText := "Failed to send data. Please try again.";
      case Some(res) =>
        if res.success {
          alertText := res.message;
          notifications := WithoutPeriod(notifications, month, year);
        } else {
          alertText := "Error: " + res.error;
        }
    }
  }
}
