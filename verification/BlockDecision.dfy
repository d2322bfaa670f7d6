/** Who is blocked, and how, said of the table: over every run of the database, outside the
    fraction of a second that a stored deadline loses. */
module BlockDecision {
  import opened Options
  import opened Downtime
  import opened UserTable
  import opened CacheCoherence
  import PortListeners
  import PortActions
  import P = ProxyHandler

  /** The table blocks the user: by an ad-hoc deadline ahead, or by the schedule while no
      deadline of an override is ahead. */
  ghost predicate TableBlocks(rows: Table, u: string, now: int) {
    && u in rows
    && var row := rows[u];
       || (row.downtimeUntil.Some? && now < row.downtimeUntil.value * 1_000_000_000)
       || (!(row.overrideUntil.Some? && now < row.overrideUntil.value * 1_000_000_000)
           && Covered(row.schedule, ((now - 259_200_000_000_000) / 60_000_000_000) % 10080))
  }

  lemma TableBlocksIff(rows: Table, u: string, now: int)
    ensures TableDowntime(rows, u, now) <==> TableBlocks(rows, u, now)
  {
    if u in rows {
      PortActions.CoveredNow(rows[u].schedule, now);
    }
  }

  /** now is in no unstored fraction of a deadline of the user's, and none is left over. */
  ghost predicate Settled(t: Traced, u: string, now: int) {
    && t.now <= now && u !in t.leftover
    && !InFraction(Deadline(t.db.until, u), now) && !InFraction(Deadline(t.db.override, u), now)
  }

  lemma BlockedIffTable(t: Traced, u: string, now: int)
    requires Reachable(t) && Settled(t, u, now)
    ensures InDowntime(t.db, u, now) <==> TableBlocks(t.db.rows, u, now)
    ensures IsEnabled(t.db, u) <==> u in t.db.rows && t.db.rows[u].enabled
  {
    CoherenceTheorem(t, u);
    DowntimeTheorem(t, u, now);
    TableBlocksIff(t.db.rows, u, now);
  }

  /** A listener is wanted with interception always, and without it exactly for enabled users
      whom the table does not block. */
  lemma ListenerTheorem(c: PortListeners.Config, t: Traced, u: string, now: int)
    requires Reachable(t) && Settled(t, u, now)
    ensures PortListeners.Wanted(c, t.db, u, now) <==>
              c.mitm || (u in t.db.rows && t.db.rows[u].enabled && !TableBlocks(t.db.rows, u, now))
  {
    BlockedIffTable(t, u, now);
  }

  /** A plain request goes through exactly if the table does not block the user. */
  lemma ForwardTheorem(t: Traced, u: string, now: int)
    requires Reachable(t) && Settled(t, u, now)
    ensures P.ForwardOutcome(t.db, u, now) ==
              if TableBlocks(t.db.rows, u, now) then P.Forbidden(u, "downtime") else P.Forwarded(u)
  {
    BlockedIffTable(t, u, now);
  }

  /** A CONNECT is tunnelled exactly if the user is not paused, or the block page is on and the
      host is passed through; a paused user gets the block page with interception and a server
      for it, and is refused otherwise. With interception a disabled user is paused too. */
  lemma ConnectTheorem(t: Traced, mitm: bool, pages: bool, passthrough: bool, u: string, now: int)
    requires Reachable(t) && Settled(t, u, now)
    ensures var disabled := mitm && !(u in t.db.rows && t.db.rows[u].enabled);
            var reason := if disabled then "disabled" else "downtime";
            P.ConnectOutcome(t.db, mitm, pages, passthrough, u, now) ==
              if !disabled && !TableBlocks(t.db.rows, u, now) then P.Forwarded(u)
              else if mitm && pages then if passthrough then P.Forwarded(u) else P.BlockPage(u, reason)
              else P.Forbidden(u, reason)
  {
    BlockedIffTable(t, u, now);
  }
}
