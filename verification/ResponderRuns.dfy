/** The responder in place carries out the steps that the theorems about runs are about. */
module ResponderRuns {
  import opened Packets
  import opened TxQueue
  import opened Pcb
  import opened ProbeDiscipline
  import opened ProbeRuns
  import opened Responder

  /** Any step, in place: what it does is the step of the protocol, and the invariant holds
      again. */
  method Perform(r: Responder, op: Op)
    requires Inv(r.Abs()) && Enabled(r.Abs(), op)
    modifies r, r.tx
    ensures r.Abs() == Apply(old(r.Abs()), op) && Inv(r.Abs())
  {
    hide Inv, Pcb.Execute, Pcb.Enable, Pcb.Disable, Pcb.Announce, Pcb.SetDuplicate, Pcb.InitProbe, Pcb.Reprobe, RemoveFrom;
    StepOk(r.Abs(), op);
    InvGives(r.Abs());
    match op
    case Tick(ms) => r.now := r.now + ms;
    case RunTimer(oks) => r.tx.SendPackets(r.now, oks);
    case RunAction(d) => r.Execute(d);
    case DoEnable(k, up, d) => r.Enable(k, up, d);
    case DoDisable(k, up, d) => r.Disable(k, up, d);
    case DoAnnounce(k, services, ip, d) => r.Announce(k, services, ip, d);
    case DoDuplicate(k, d) => r.SetDuplicate(k, d);
    case DoProbe(k, services, ip, d) => r.InitProbe(k, services, ip, d);
    case DoReprobe(k, services, ip, clearOld, d) => r.Reprobe(k, services, ip, clearOld, d);
    case DoRestart(ks, ds) => r.Restart(ks, ds);
    case DoReply(p, ms) => r.tx.SendAfter(p, r.now, ms);
    case DoAmend(i, answers) => r.tx.Replace(i, r.tx.packets[i].(answers := answers));
    case DoRemove(svc) => r.RemoveService(svc);
    case DoFail(k) => r.SetProbeFailed(k);
    case DoServices(services) => r.services := services;
    case DoNames(names) => r.names := names;
  }
}
