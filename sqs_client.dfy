/**
 * The stand-in for the SQS client: only the visibility-override table, mapping a
 * receipt handle to a visibility timeout in seconds.
 */
module AwsSqsClient {

  import opened Wrappers
  import opened Messages

  class InMemoryAwsSqsClient {
    var handles: map<string, Int32>

    constructor ()
      ensures handles == map[]
    {
      handles := map[];
    }

    /**
     * changeMessageVisibility(request): records the timeout for the handle, replacing
     * any earlier one; no other handle's entry changes.
     */
    method ChangeMessageVisibility(receiptHandle: string, visibilityTimeout: Int32)
      modifies this
      ensures handles == old(handles)[receiptHandle := visibilityTimeout]
    {
      handles := handles[receiptHandle := visibilityTimeout];
    }

    /** getHandle(key): the recorded timeout, or null; the table is not changed. */
    method GetHandle(key: string) returns (timeout: Option<Int32>)
      ensures timeout.Some? <==> key in handles
      ensures timeout.Some? ==> timeout.value == handles[key]
    {
      timeout := if key in handles then Some(handles[key]) else None;
    }
  }

  /** After a change for h, looking h up gives the new timeout, and the table grows only if h was new. */
  lemma ChangeThenGet(handles: map<string, Int32>, h: string, t: Int32, other: string)
    requires other != h
    ensures var after := handles[h := t];
            after[h] == t
            && (h in handles ==> |after| == |handles|)
            && (h !in handles ==> |after| == |handles| + 1)
            && (other in after <==> other in handles)
            && (other in handles ==> after[other] == handles[other])
  {
    var after := handles[h := t];
    if h in handles {
      assert after.Keys == handles.Keys;
    } else {
      assert after.Keys == handles.Keys + {h};
    }
  }
}
