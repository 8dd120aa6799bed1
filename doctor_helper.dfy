/**
 * `utils/doctorHelper.js`: a page asks for the doctor list and is answered at once when
 * the list is already loaded, or queued until the app's next `SetDoctors`.
 */
module DoctorHelper {

  import opened Values
  import opened MiniApp

  /** Create the ready-queue when it is unset, and return it. */
  method EnsureCallbacks(app: App) returns (queue: seq<Callback>)
    modifies app`callbacks
    ensures old(app.callbacks).Some? ==> app.callbacks == old(app.callbacks)
    ensures old(app.callbacks).None? ==> app.callbacks == Some([])
    ensures app.callbacks == Some(queue)
  {
    if app.callbacks.None? {
      app.callbacks := Some([]);
    }
    queue := app.callbacks.value;
  }

  /** Call function `callback` now with the loaded list, or queue it when the list is empty. */
  method OnDoctorsReady(app: App, callback: nat)
    modifies app`callbacks, app`invocations
    ensures old(app.doctors) != [] ==>
              && app.invocations == old(app.invocations) + [Invocation(callback, app.doctors)]
              && app.callbacks == (if old(app.callbacks).None? then Some([]) else old(app.callbacks))
    ensures old(app.doctors) == [] ==>
              && app.invocations == old(app.invocations)
              && app.callbacks == Some(old(app.callbacks).GetOr([]) + [Fn(callback)])
  {
    var _ := EnsureCallbacks(app);
    if |app.doctors| > 0 {
      app.invocations := app.invocations + [Invocation(callback, app.doctors)];
    } else {
      app.callbacks := Some(app.callbacks.value + [Fn(callback)]);
    }
  }

  /** A callback that was queued because the list was empty is called exactly once, with
      the new list, by the next flush, after every callback queued before it. */
  lemma QueuedCallbackRunsOnce(q: seq<Callback>, callback: nat, ds: seq<Doctor>)
    ensures Flush(q + [Fn(callback)], ds) == Flush(q, ds) + [Invocation(callback, ds)]
    ensures multiset(Flush(q + [Fn(callback)], ds))[Invocation(callback, ds)]
            == multiset(q)[Fn(callback)] + 1
  {
    assert (q + [Fn(callback)])[..|q|] == q;
    FlushCallsEachOnce(q, ds, callback, ds);
  }
}
