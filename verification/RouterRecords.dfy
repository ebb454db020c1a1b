/** The record calls of a process, made through the router's command interpreter: each is the edit
    of the table that the interleavings are about, or has no effect. */
module RouterRecords {
  import opened Text
  import opened Ledgers
  import opened Process
  import Dnsmasq
  import Listings
  import Router

  /** Edits see only the visible lines, so trimming what the router printed changes nothing. */
  lemma EditTrimmed(zone: string, table: string, e: Edit)
    ensures EditText(zone, TrimSpace(table), e) == EditText(zone, table, e)
  {
    Dnsmasq.TrimmedTextShows(table);
  }

  /** The line of a record: the cluster's name in the zone, and its address. */
  lemma RecordLine(zone: string, cluster: string, ip: string)
    ensures Dnsmasq.Entry(Name(cluster, zone), ip) == "address=/" + cluster + "." + zone + "/" + ip
  {
    assert Dnsmasq.Marker(Name(cluster, zone)) == "/" + cluster + "." + zone + "/";
  }

  /** A listing shows a marked address under the wildcard of the name its record is stored at, and any
      address without the mark under none. */
  lemma ListedName(info: IPInfo, zone: string)
    ensures HasDNS(info) && info.cluster != "" && zone != "" ==>
              Listings.FQDN(info, zone) == "*." + Name(info.cluster, zone)
    ensures !Contains(info.status, ":DNS") || info.cluster == "" || zone == "" ==> Listings.FQDN(info, zone) == ""
  {
    if HasDNS(info) {
      Found(info.status, ":DNS", |info.status| - 4);
    }
  }

  /** The client's call for an edit. */
  function Called(s: Router.State, zone: string, e: Edit): Router.Done {
    match e
    case Withdraw(c) => Router.Deleted(s, Name(c, zone))
    case Publish(c, ip) => Router.Created(s, Name(c, zone), ip)
  }

  /** The call came as far as storing the table. */
  predicate TookEffect(done: Router.Done) {
    done.failure != Some(Router.ReadFailed) && done.failure != Some(Router.SetFailed)
  }

  /** A call stores exactly the edit of the table the router held, or leaves all of nvram as it was;
      without an error it stored it. */
  lemma CallEdits(s: Router.State, zone: string, e: Edit)
    requires !Contains(EditText(zone, s.Value(Router.OPTIONS), e), Router.AND)
    ensures var done := Called(s, zone, e);
            && done.state.nvram == (if TookEffect(done) then
                 s.nvram[Router.OPTIONS := EditText(zone, s.Value(Router.OPTIONS), e)] else s.nvram)
            && (done.failure.None? ==> TookEffect(done))
  {
    EditTrimmed(zone, s.Value(Router.OPTIONS), e);
    match e {
      case Withdraw(c) => Router.DeleteReported(s, Name(c, zone));
      case Publish(c, ip) => Router.CreateReported(s, Name(c, zone), ip);
    }
  }

  /** So a call by the writer that holds the lock is one step of the process: its table afterwards is
      what the router then holds. */
  lemma CallIsStep(zone: string, p: State, i: nat, s: Router.State)
    requires Locked(p) && In(p, i) && p.phases[i].Editing? && p.phases[i].todo != []
    requires s.Value(Router.OPTIONS) == p.table
    requires !Contains(EditText(zone, p.table, p.phases[i].todo[0]), Router.AND)
    ensures var done := Called(s, zone, p.phases[i].todo[0]);
            var step := if TookEffect(done) then Step.Write(i) else Drop(i);
            Enabled(p, step) && done.state.Value(Router.OPTIONS) == Take(zone, p, step).table
  {
    CallEdits(s, zone, p.phases[i].todo[0]);
  }
}
