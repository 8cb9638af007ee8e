/** The manager around one run of the handler. */
module RfcManager {
  import opened XconfProtocol
  import opened XconfReboot
  import XconfHandler

  /** RFCManagerProcess: the events of the run, and nothing at all when the initialisation fails. */
  method ManagerProcess(initialised: bool, env: Env, s: Session) returns (ok: bool, events: seq<Event>)
    ensures !initialised ==> !ok && events == []
    ensures initialised ==> ok == Succeeds(ProcessRequest(env, s).outcome) && events == Events(ProcessRequest(env, s))
    ensures initialised ==>
              var run := ProcessRequest(env, s);
              && (ok <==> run.outcome.Unchanged? || run.outcome.Accepted?)
              && events ==
                   if run.outcome.Exhausted? || run.outcome.Blocked? || run.outcome.NoMemory? || run.outcome.Rejected? then [Error]
                   else if run.s.db.reboot then [Complete, CriticalUpdate, RebootRequired]
                   else [Complete]
  {
    hide ProcessRequest;
    ok, events := false, [];
    if !initialised {
      return;
    }
    var handler := new XconfHandler.Handler(env, s);
    var result, outcome := handler.ProcessRuntimeFeatureControlReq();
    if result {
      events := events + [Complete];
      if handler.db.reboot {
        events := events + [CriticalUpdate];
        events := events + [RebootRequired];
      }
      ok := true;
    } else {
      events := events + [Error];
    }
  }
}
