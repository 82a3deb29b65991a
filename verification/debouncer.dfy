/** `Debouncer`: a one-shot timer that keeps only the most recently supplied callback.
    Time is not modelled; the timer going off is the explicit `Fire`. */
module Debouncing {
  import opened Wrappers

  /** The callback waiting for the timer (`nil` when none). */
  datatype Debouncer<C> = Debouncer(callback: Option<C>)

  /** What a timer event did: the callback it invoked (if any) and the debouncer after. */
  datatype Fired<C> = Fired(invoked: Option<C>, next: Debouncer<C>)

  /** `call(callback:)`: the pending callback is replaced, whatever it was. */
  function Call<C>(d: Debouncer<C>, callback: Option<C>): (r: Debouncer<C>)
    ensures r.callback == callback
  {
    Debouncer(callback)
  }

  /** `handleTimer`: the pending callback runs, then none is pending. */
  function Fire<C>(d: Debouncer<C>): (r: Fired<C>)
    ensures r.invoked == d.callback
    ensures r.next.callback.None?
  {
    Fired(d.callback, Debouncer(None))
  }

  /** The debouncer after a burst of `call`s, in order. */
  function CallAll<C>(d: Debouncer<C>, callbacks: seq<Option<C>>): Debouncer<C>
    decreases |callbacks|
  {
    if callbacks == [] then d else CallAll(Call(d, callbacks[0]), callbacks[1..])
  }

  /** After any non-empty burst of calls, the timer invokes the last callback only, and
      a second timer event with no call in between invokes nothing. */
  lemma {:induction false} BurstThenFire<C>(d: Debouncer<C>, callbacks: seq<Option<C>>)
    requires callbacks != []
    ensures Fire(CallAll(d, callbacks)).invoked == callbacks[|callbacks| - 1]
    ensures Fire(Fire(CallAll(d, callbacks)).next).invoked == None
    decreases |callbacks|
  {
    if |callbacks| > 1 {
      BurstThenFire(Call(d, callbacks[0]), callbacks[1..]);
    }
  }
}
