/** The NetFD objects that both wait sets hold references to. */
module NetFds {
  import opened WaitSet

  /** A NetFD together with what a Poll call on it owns: its timeout argument, its timer, and
      its task's place in the run queue. */
  class NetFD {
    var fd: int
    var shared: bool
    var events: Mask
    var revents: Mask
    var owner: bool
    var timed: bool
    var timer: bool
    var armed: bool
    var queued: nat

    constructor (share: bool)
      ensures Record() == Rec(-1, share, {}, {}, false, false, false, false, 0)
    {
      fd, events, revents, shared, owner := -1, {}, {}, share, false;
      timed, timer, armed, queued := false, false, false, 0;
    }

    /** operator=: the pollfd is taken over whole, and a share is joined; the copy of a shared
        NetFD belongs to nobody.  One that is not shared is not copied while another task than
        the running one has it; `mine` says that it is the running task's. */
    method Assign(rfd: NetFD, mine: bool) returns (ok: bool)
      modifies this`fd, this`events, this`revents, this`shared, this`owner
      ensures ok == old(rfd.shared || !rfd.owner || mine)
      ensures !ok ==> Record() == old(Record()).(fd := -1)
      ensures ok ==> Record() == old(Record()).(fd := old(rfd.fd), events := old(rfd.events), revents := old(rfd.revents),
                                                shared := old(shared || rfd.shared), owner := old(!rfd.shared && rfd.owner))
    {
      if !rfd.shared {
        if rfd.owner && !mine {
          fd := -1;
          return false;
        }
        fd, events, revents := rfd.fd, rfd.events, rfd.revents;
        owner := rfd.owner;
      } else {
        fd, events, revents := rfd.fd, rfd.events, rfd.revents;
        owner := false;
        shared := true;
      }
      return true;
    }

    function Record(): Rec reads this {
      Rec(fd, shared, events, revents, owner, timed, timer, armed, queued)
    }

    /** RemoveNetFD2TaskRunnable: WakeupBySelfIO puts the task into the run queue. */
    method MakeRunnable()
      modifies this`queued
      ensures Record() == old(Record()).(queued := old(queued) + 1)
    {
      queued := queued + 1;
    }

    /** A stopped timer does not fire. */
    method StopTimer()
      requires armed ==> timer
      modifies this`timer, this`armed
      ensures Record() == old(Record()).(timer := false, armed := false)
    {
      if timer {
        armed := false;
        timer := false;
      }
    }
  }
}
