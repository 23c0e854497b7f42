/** The incident reporter: gates a reported action, files it under a campaign and asks for a popup. */
module IncidentReporter {
  import opened Collections
  import opened SlidingWindow
  import C = Campaigns
  import D = ReportDedup
  import P = PopupBudget

  /** A campaign as the reporter keeps it: one record whose fields change as actions join. */
  class CampaignRecord {
    var startTs: real
    var lastTs: real
    var filename: int
    var pids: set<int>
    var members: seq<C.Member>
    var finalized: bool
    var finalizedTs: real

    function View(): C.Campaign
      reads this
    {
      C.Campaign(startTs, lastTs, filename, pids, members, finalized, finalizedTs)
    }

    constructor (ts: real)
      ensures View() == C.Campaign(ts, ts, C.FileStamp(ts), {}, [], false, 0.0)
    {
      startTs, lastTs, filename := ts, ts, C.FileStamp(ts);
      pids, members := {}, [];
      finalized, finalizedTs := false, 0.0;
    }

    method Add(m: C.Member)
      modifies this
      ensures View() == C.AddMember(old(View()), m)
    {
      lastTs := Max(lastTs, m.ts);
      pids := pids + {m.pid};
      members := members + [m];
    }

    method Close(now: real)
      modifies this`finalized, this`finalizedTs
      ensures View() == old(View()).(finalized := true, finalizedTs := now)
    {
      finalized := true;
      finalizedTs := now;
    }
  }

  class Reporter {
    var campaigns: seq<CampaignRecord>
    var reportedStates: D.Table
    var notifyWindow: seq<real>
    const notify: bool

    /** The campaigns cut off by the length limit, the values of the tracked ones, and all snapshots handed to the
        report writer. */
    ghost var dropped: seq<C.Campaign>
    ghost var tracked: seq<C.Campaign>
    ghost var written: seq<C.Campaign>

    ghost predicate Mirrors()
      reads this`campaigns, this`tracked, campaigns
    {
      && (forall i, j :: 0 <= i < j < |campaigns| ==> campaigns[i] != campaigns[j])
      && |tracked| == |campaigns|
      && (forall i :: 0 <= i < |campaigns| ==> campaigns[i].View() == tracked[i])
    }

    ghost predicate Valid()
      reads this`campaigns, this`tracked, campaigns
    {
      Mirrors() && |campaigns| <= C.CAMPAIGN_MAX
    }

    ghost function State(): C.State
      reads this`dropped, this`tracked, this`written
    {
      C.State(dropped, tracked, written)
    }

    constructor (notify: bool)
      ensures Valid() && State() == C.State([], [], [])
      ensures reportedStates == map[] && notifyWindow == []
    {
      campaigns, reportedStates, notifyWindow := [], map[], [];
      dropped, tracked, written := [], [], [];
      this.notify := notify;
    }

    /** Add the action to the open campaign, or open a new one. */
    method UpdateCampaign(m: C.Member)
      requires Valid()
      modifies this`campaigns, this`dropped, this`tracked, campaigns
      ensures Valid() && State() == C.Step(old(State()), C.Report(m))
      ensures forall c :: c in campaigns ==> c in old(campaigns) || fresh(c)
    {
      if campaigns != [] {
        var last := campaigns[|campaigns| - 1];
        if !last.finalized && m.ts - last.lastTs <= C.CAMPAIGN_GAP_SECS {
          last.Add(m);
          tracked := C.Join(tracked, m);
          return;
        }
      }
      OpenCampaign(m);
    }

    /** Start a campaign with this action and cut the list to its limit. */
    method OpenCampaign(m: C.Member)
      requires Valid() && !C.Joins(tracked, m)
      modifies this`campaigns, this`dropped, this`tracked
      ensures Valid() && State() == C.Step(old(State()), C.Report(m))
      ensures forall c :: c in campaigns ==> c in old(campaigns) || fresh(c)
    {
      var camp := new CampaignRecord(m.ts);
      camp.Add(m);
      assert C.Join(tracked, m) == tracked + [camp.View()];
      campaigns := campaigns + [camp];
      tracked := tracked + [camp.View()];
      CutToLimit();
    }

    method CutToLimit()
      requires Mirrors()
      modifies this`campaigns, this`dropped, this`tracked
      ensures Valid() && tracked == Tail(old(tracked), C.CAMPAIGN_MAX)
      ensures dropped == old(dropped) + old(tracked)[..|old(tracked)| - |tracked|]
      ensures forall c :: c in campaigns ==> c in old(campaigns)
    {
      ghost var cut := if |campaigns| > C.CAMPAIGN_MAX then |campaigns| - C.CAMPAIGN_MAX else 0;
      if |campaigns| > C.CAMPAIGN_MAX {
        campaigns := campaigns[|campaigns| - C.CAMPAIGN_MAX..];
      }
      dropped := dropped + tracked[..cut];
      tracked := tracked[cut..];
    }

    /** Finalise what is due and return the snapshots to write, in order. */
    method FinalizeDue(now: real, force: bool) returns (pending: seq<C.Campaign>)
      requires Valid()
      modifies this`tracked, this`written, campaigns
      ensures Valid() && State() == C.Step(old(State()), C.Poll(now, force))
      ensures written == old(written) + pending
    {
      pending := CloseDue(now, force);
      C.FinalizeKeepsLength(tracked, now, force);
      tracked := C.FinalizeAll(tracked, now, force);
      written := written + pending;
    }

    method CloseDue(now: real, force: bool) returns (pending: seq<C.Campaign>)
      requires Valid()
      modifies campaigns
      ensures forall i :: 0 <= i < |campaigns| ==> campaigns[i].View() == C.FinalizeOne(tracked[i], now, force)
      ensures pending == C.Pending(tracked, now, force)
    {
      pending := [];
      for i := 0 to |campaigns|
        invariant forall j :: 0 <= j < i ==> campaigns[j].View() == C.FinalizeOne(tracked[j], now, force)
        invariant forall j :: i <= j < |campaigns| ==> campaigns[j].View() == tracked[j]
        invariant pending == C.Pending(tracked[..i], now, force)
      {
        assert Front(tracked[..i + 1]) == tracked[..i];
        var c := campaigns[i];
        if c.finalized {
          continue;
        }
        if force || now - c.lastTs > C.CAMPAIGN_GAP_SECS {
          c.Close(now);
          pending := pending + [c.View()];
        }
      }
      assert tracked[..|tracked|] == tracked;
    }

    /** May this state be reported now? Remember it if so, and prune the table when it has grown too large. */
    method AdmitReport(key: D.Key, now: real) returns (admitted: bool)
      modifies this`reportedStates
      ensures admitted == !D.Suppressed(old(reportedStates), key, now)
      ensures reportedStates == D.After(old(reportedStates), key, now, true)
    {
      if key in reportedStates && now - reportedStates[key] < D.REPORT_DEDUP_SECS {
        return false;
      }
      reportedStates := reportedStates[key := now];
      if |reportedStates| > D.REPORT_DEDUP_MAX {
        var cutoff := now - D.REPORT_DEDUP_SECS;
        reportedStates := map k | k in reportedStates && reportedStates[k] >= cutoff :: reportedStates[k];
      }
      return true;
    }

    method NotifyRateOk(now: real) returns (ok: bool)
      modifies this`notifyWindow
      ensures ok == P.Permits(old(notifyWindow), now)
      ensures notifyWindow == P.After(old(notifyWindow), now)
    {
      notifyWindow := PopOld(notifyWindow, now - P.NOTIFY_WINDOW_SECS);
      if |notifyWindow| >= P.NOTIFY_MAX_PER_WINDOW {
        if |notifyWindow| == P.NOTIFY_MAX_PER_WINDOW {
          notifyWindow := notifyWindow + [now];
        }
        return false;
      }
      notifyWindow := notifyWindow + [now];
      return true;
    }

    /** One action from the responder. Only an action that did something and is no recent repeat is filed; only a
        filed one may raise a popup. */
    method OnAction(m: C.Member, now: real) returns (reported: bool, popup: bool)
      requires Valid()
      modifies this`campaigns, this`dropped, this`tracked, this`reportedStates, this`notifyWindow, campaigns
      ensures Valid()
      ensures var key := D.Key(m.pid, m.terminated, m.quarantined);
              && reported == ((m.terminated || m.quarantined) && !D.Suppressed(old(reportedStates), key, now))
              && reportedStates == (if m.terminated || m.quarantined then D.After(old(reportedStates), key, now, true)
                                    else old(reportedStates))
      ensures State() == if reported then C.Step(old(State()), C.Report(m)) else old(State())
      ensures popup == (reported && notify && P.Permits(old(notifyWindow), now))
      ensures notifyWindow == if reported && notify then P.After(old(notifyWindow), now) else old(notifyWindow)
    {
      popup := false;
      if !(m.terminated || m.quarantined) {
        return false, false;
      }
      reported := AdmitReport(D.Key(m.pid, m.terminated, m.quarantined), now);
      if !reported {
        return;
      }
      popup := FileReport(m, now);
    }

    /** The accepted part of an action: its campaign, and a popup if there is budget for one. */
    method FileReport(m: C.Member, now: real) returns (popup: bool)
      requires Valid()
      modifies this`campaigns, this`dropped, this`tracked, this`notifyWindow, campaigns
      ensures Valid() && State() == C.Step(old(State()), C.Report(m))
      ensures popup == (notify && P.Permits(old(notifyWindow), now))
      ensures notifyWindow == if notify then P.After(old(notifyWindow), now) else old(notifyWindow)
    {
      UpdateCampaign(m);
      popup := false;
      if notify {
        popup := NotifyRateOk(now);
      }
    }
  }
}
