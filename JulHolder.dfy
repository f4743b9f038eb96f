/** The slot through which the Log4j2 side finds the JUL manager: one instance,
    replaced by each registration. */
module JulHolder {
  import JM = JulManager

  class JulLoggingManagerHolder {
    /** The registered manager; null until the first registration. */
    var instance: JM.JulLoggingManager?

    /** The slot starts empty. */
    constructor ()
      ensures instance == null
    {
      instance := null;
    }

    /** `register`: the new manager takes the slot and the one it replaces is
        returned, null when the slot was empty. */
    method Register(bean: JM.JulLoggingManager?) returns (previous: JM.JulLoggingManager?)
      modifies this
      ensures previous == old(instance)
      ensures instance == bean
    {
      previous := null;
      if instance != null {
        previous := instance;
      }
      instance := bean;
    }

    /** `getInstance` */
    function GetInstance(): (current: JM.JulLoggingManager?)
      reads this
      ensures current == instance
    {
      instance
    }
  }

  /** Two registrations in a row: the first finds the slot as it was, the
      second gets the first manager back, and the last one registered is the
      one the slot holds. */
  method RegisterTwice(holder: JulLoggingManagerHolder, first: JM.JulLoggingManager, second: JM.JulLoggingManager)
    returns (returnedFirst: JM.JulLoggingManager?, returnedSecond: JM.JulLoggingManager?)
    modifies holder
    ensures returnedFirst == old(holder.instance)
    ensures returnedSecond == first
    ensures holder.GetInstance() == second
  {
    returnedFirst := holder.Register(first);
    returnedSecond := holder.Register(second);
  }
}
