/** `net_evt_queue`: the kernel message queue the components share. */
module EventQueue {
  import opened Types

  class EventQueue {
    var q: Queue

    constructor ()
      ensures q == Queue([], false)
    {
      q := Queue([], false);
    }

    /** `k_msgq_put` with K_NO_WAIT, whose result every caller ignores. */
    method Put(m: Msg)
      modifies this
      ensures q == old(q).Put(m)
    {
      if |q.msgs| < QUEUE_DEPTH {
        q := Queue(q.msgs + [m], q.dropped);
      } else {
        q := Queue(q.msgs, true);
      }
    }

    /** `k_msgq_get` when a message is there. */
    method Get() returns (m: Msg)
      requires q.msgs != []
      modifies this
      ensures m == old(q).msgs[0] && q == old(q).(msgs := old(q).msgs[1..])
    {
      m := q.msgs[0];
      q := Queue(q.msgs[1..], q.dropped);
    }
  }
}
