/** The financial dashboard of the admin page: the per-period donation
    counts and sums, the server and MOD costs, the campaign totals, the
    month's balance, and the loop that refreshes the status of every
    donation not yet approved. Amounts are exact integers (centavos); the
    month and year of a record are given as integers, as getMonth and
    getFullYear read them. */
module AdminDashboard {
  import opened Db

  const Approved := "approved"
  const PendingStatus := "pending"

  datatype Donation = Donation(id: string, paymentId: string, status: string, amount: int, month: int, year: int)

  datatype Servidor = Servidor(id: string, valorMensal: int)

  datatype ServidorMod = ServidorMod(id: string, servidorId: string, valorMensal: int)

  /** A campaign: its start and end instants, the month and year of its
      start, and its value. */
  datatype Campaign = Campaign(inicio: int, fim: int, month: int, year: int, valor: int)

  predicate InPeriod(d: Donation, month: int, year: int) {
    d.month == month && d.year == year
  }

  /** The number of donations of the period, all of them (status None) or
      those with the given status. */
  function CountIn(ds: seq<Donation>, month: int, year: int, status: Option<string>): (n: nat)
    ensures n <= |ds|
  {
    if ds == [] then 0
    else
      var d := ds[0];
      (if InPeriod(d, month, year) && (status.None? || d.status == status.value) then 1 else 0)
      + CountIn(ds[1..], month, year, status)
  }

  /** The sum of the amounts of the period's donations with the given
      status. */
  function SumIn(ds: seq<Donation>, month: int, year: int, status: string): int {
    if ds == [] then 0
    else
      var d := ds[0];
      (if InPeriod(d, month, year) && d.status == status then d.amount else 0)
      + SumIn(ds[1..], month, year, status)
  }

  /** "Doações Aprovadas" plus "Doações Pendentes" never exceed "Total de
      Doações": no donation is counted in both. */
  lemma {:induction false} ApprovedPlusPendingAtMostTotal(ds: seq<Donation>, month: int, year: int)
    ensures CountIn(ds, month, year, Some(Approved)) + CountIn(ds, month, year, Some(PendingStatus))
      <= CountIn(ds, month, year, None)
  {
    if ds != [] {
      ApprovedPlusPendingAtMostTotal(ds[1..], month, year);
    }
  }

  /** The sums split over a concatenation of donation lists. */
  lemma {:induction false} SumInConcat(a: seq<Donation>, b: seq<Donation>, month: int, year: int, status: string)
    ensures SumIn(a + b, month, year, status) == SumIn(a, month, year, status) + SumIn(b, month, year, status)
  {
    if a == [] {
      assert a + b == b;
    } else {
      assert (a + b)[0] == a[0];
      assert (a + b)[1..] == a[1..] + b;
      SumInConcat(a[1..], b, month, year, status);
    }
  }

  /** A donation outside the period, or with another status, adds nothing;
      one inside adds its amount. */
  lemma SumInAppend(ds: seq<Donation>, d: Donation, month: int, year: int, status: string)
    ensures SumIn(ds + [d], month, year, status) ==
      SumIn(ds, month, year, status) + (if InPeriod(d, month, year) && d.status == status then d.amount else 0)
  {
    SumInConcat(ds, [d], month, year, status);
    assert [d][1..] == [];
  }

  /** With non-negative amounts, "Valor Total Recebido" and "Valor
      Pendente" are never negative. */
  lemma {:induction false} SumInNonNegative(ds: seq<Donation>, month: int, year: int, status: string)
    requires forall k :: 0 <= k < |ds| ==> ds[k].amount >= 0
    ensures SumIn(ds, month, year, status) >= 0
  {
    if ds != [] {
      SumInNonNegative(ds[1..], month, year, status);
    }
  }

  function SumServers(servers: seq<Servidor>): int {
    if servers == [] then 0 else servers[0].valorMensal + SumServers(servers[1..])
  }

  function SumMods(mods: seq<ServidorMod>): int {
    if mods == [] then 0 else mods[0].valorMensal + SumMods(mods[1..])
  }

  /** "Custo Mensal Servidores": every server's monthly cost plus every
      MOD's. */
  function ServerCost(servers: seq<Servidor>, mods: seq<ServidorMod>): int {
    SumServers(servers) + SumMods(mods)
  }

  /** `allServidorMods.filter(m => m.servidor_id === id)`. */
  function ModsOf(mods: seq<ServidorMod>, id: string): (r: seq<ServidorMod>)
    ensures forall k :: 0 <= k < |r| ==> r[k].servidorId == id
  {
    if mods == [] then []
    else if mods[0].servidorId == id then [mods[0]] + ModsOf(mods[1..], id)
    else ModsOf(mods[1..], id)
  }

  /** The MODs of every other server. */
  function ModsNotOf(mods: seq<ServidorMod>, id: string): (r: seq<ServidorMod>)
    ensures forall k :: 0 <= k < |r| ==> r[k].servidorId != id
  {
    if mods == [] then []
    else if mods[0].servidorId == id then ModsNotOf(mods[1..], id)
    else [mods[0]] + ModsNotOf(mods[1..], id)
  }

  /** "Total do Servidor" in the cost breakdown. */
  function ServerTotal(s: Servidor, mods: seq<ServidorMod>): int {
    s.valorMensal + SumMods(ModsOf(mods, s.id))
  }

  /** The sum of the per-server totals of the breakdown. */
  function SumServerTotals(servers: seq<Servidor>, mods: seq<ServidorMod>): int {
    if servers == [] then 0 else ServerTotal(servers[0], mods) + SumServerTotals(servers[1..], mods)
  }

  predicate Listed(servers: seq<Servidor>, id: string) {
    exists j :: 0 <= j < |servers| && servers[j].id == id
  }

  predicate DistinctIds(servers: seq<Servidor>) {
    forall i, j :: 0 <= i < j < |servers| ==> servers[i].id != servers[j].id
  }

  lemma {:induction false} SumModsSplit(mods: seq<ServidorMod>, id: string)
    ensures SumMods(mods) == SumMods(ModsOf(mods, id)) + SumMods(ModsNotOf(mods, id))
  {
    if mods != [] {
      SumModsSplit(mods[1..], id);
    }
  }

  lemma {:induction false} ModsOfNotOf(mods: seq<ServidorMod>, a: string, b: string)
    requires a != b
    ensures ModsOf(ModsNotOf(mods, a), b) == ModsOf(mods, b)
  {
    if mods != [] {
      ModsOfNotOf(mods[1..], a, b);
    }
  }

  /** A server is listed in a non-empty list when it is the first one or
      is listed in the rest. */
  lemma ListedCons(servers: seq<Servidor>, id: string)
    requires servers != []
    ensures Listed(servers, id) <==> servers[0].id == id || Listed(servers[1..], id)
  {
    if Listed(servers[1..], id) {
      var j :| 0 <= j < |servers[1..]| && servers[1..][j].id == id;
      assert servers[j + 1].id == id;
    }
    if Listed(servers, id) {
      var j :| 0 <= j < |servers| && servers[j].id == id;
      if j > 0 {
        assert servers[1..][j - 1].id == id;
      }
    }
  }

  /** With distinct ids the first server is not listed again in the rest,
      whose ids are distinct too. */
  lemma DistinctTail(servers: seq<Servidor>)
    requires servers != [] && DistinctIds(servers)
    ensures !Listed(servers[1..], servers[0].id)
    ensures DistinctIds(servers[1..])
  {
    forall j | 0 <= j < |servers| - 1
      ensures servers[1..][j].id != servers[0].id
    {
      assert servers[1..][j] == servers[j + 1];
    }
  }

  /** Removing the MODs of a server not in the list leaves the totals of
      the list as they were. */
  lemma {:induction false} SumServerTotalsWithout(servers: seq<Servidor>, mods: seq<ServidorMod>, id: string)
    requires !Listed(servers, id)
    ensures SumServerTotals(servers, ModsNotOf(mods, id)) == SumServerTotals(servers, mods)
  {
    if servers != [] {
      ModsOfNotOf(mods, id, servers[0].id);
      ListedCons(servers, id);
      SumServerTotalsWithout(servers[1..], mods, id);
    }
  }

  /** The MODs whose server is not in the list: the ones no per-server total
      of the breakdown shows. */
  function Unlisted(servers: seq<Servidor>, mods: seq<ServidorMod>): seq<ServidorMod> {
    if mods == [] then []
    else if Listed(servers, mods[0].servidorId) then Unlisted(servers, mods[1..])
    else [mods[0]] + Unlisted(servers, mods[1..])
  }

  lemma {:induction false} UnlistedNotOf(servers: seq<Servidor>, mods: seq<ServidorMod>)
    requires servers != []
    ensures Unlisted(servers[1..], ModsNotOf(mods, servers[0].id)) == Unlisted(servers, mods)
  {
    if mods != [] {
      ListedCons(servers, mods[0].servidorId);
      UnlistedNotOf(servers, mods[1..]);
    }
  }

  lemma {:induction false} UnlistedOfNone(mods: seq<ServidorMod>)
    ensures Unlisted([], mods) == mods
  {
    if mods != [] {
      UnlistedOfNone(mods[1..]);
    }
  }

  /** With distinct server ids, the per-server totals of the breakdown plus
      the MODs of unlisted servers add up to the cost card. */
  lemma {:induction false} ServerTotalsPlusUnlisted(servers: seq<Servidor>, mods: seq<ServidorMod>)
    requires DistinctIds(servers)
    ensures SumServerTotals(servers, mods) + SumMods(Unlisted(servers, mods)) == ServerCost(servers, mods)
  {
    if servers == [] {
      UnlistedOfNone(mods);
    } else {
      var s := servers[0];
      SumModsSplit(mods, s.id);
      DistinctTail(servers);
      SumServerTotalsWithout(servers[1..], mods, s.id);
      UnlistedNotOf(servers, mods);
      ServerTotalsPlusUnlisted(servers[1..], ModsNotOf(mods, s.id));
    }
  }

  lemma {:induction false} UnlistedEmpty(servers: seq<Servidor>, mods: seq<ServidorMod>)
    requires forall k :: 0 <= k < |mods| ==> Listed(servers, mods[k].servidorId)
    ensures Unlisted(servers, mods) == []
  {
    if mods != [] {
      assert Listed(servers, mods[0].servidorId);
      UnlistedEmpty(servers, mods[1..]);
    }
  }

  /** The per-server totals of the breakdown add up to the cost card when
      server ids are distinct and every MOD names a listed server (the
      foreign key of the MOD table). */
  lemma ServerTotalsAddUp(servers: seq<Servidor>, mods: seq<ServidorMod>)
    requires DistinctIds(servers)
    requires forall k :: 0 <= k < |mods| ==> Listed(servers, mods[k].servidorId)
    ensures SumServerTotals(servers, mods) == ServerCost(servers, mods)
  {
    ServerTotalsPlusUnlisted(servers, mods);
    UnlistedEmpty(servers, mods);
  }

  predicate StartsIn(c: Campaign, month: int, year: int) {
    c.month == month && c.year == year
  }

  /** "Total em Campanhas": the value of the campaigns that start in the
      period. */
  function CampaignTotal(cs: seq<Campaign>, month: int, year: int): int {
    if cs == [] then 0
    else (if StartsIn(cs[0], month, year) then cs[0].valor else 0) + CampaignTotal(cs[1..], month, year)
  }

  /** "Total Geral": servers and MODs plus the period's campaigns. */
  function TotalGeral(servers: seq<Servidor>, mods: seq<ServidorMod>, cs: seq<Campaign>, month: int, year: int): int {
    ServerCost(servers, mods) + CampaignTotal(cs, month, year)
  }

  /** "Saldo do Mês": received minus server costs minus campaigns. */
  function Saldo(ds: seq<Donation>, servers: seq<Servidor>, mods: seq<ServidorMod>, cs: seq<Campaign>,
                 month: int, year: int): int {
    SumIn(ds, month, year, Approved) - ServerCost(servers, mods) - CampaignTotal(cs, month, year)
  }

  function SaldoColor(saldo: int): string {
    if saldo >= 0 then "text-green-500" else "text-red-500"
  }

  /** The balance is what was received minus "Total Geral", and it is shown
      green exactly when that leaves nothing owed. */
  lemma SaldoIsReceivedMinusTotal(ds: seq<Donation>, servers: seq<Servidor>, mods: seq<ServidorMod>,
                                  cs: seq<Campaign>, month: int, year: int)
    ensures Saldo(ds, servers, mods, cs, month, year) ==
      SumIn(ds, month, year, Approved) - TotalGeral(servers, mods, cs, month, year)
    ensures SaldoColor(Saldo(ds, servers, mods, cs, month, year)) == "text-green-500" <==>
      SumIn(ds, month, year, Approved) >= TotalGeral(servers, mods, cs, month, year)
  {
  }

  /** A campaign is "Ativa" when now lies between its start and its end,
      both included. */
  predicate Active(c: Campaign, now: int) {
    c.inicio <= now && c.fim >= now
  }

  function StatusLabel(c: Campaign, now: int): string {
    if Active(c, now) then "Ativa" else "Finalizada"
  }

  /** "Campanhas Ativas". */
  function ActiveCount(cs: seq<Campaign>, now: int): (n: nat)
    ensures n <= |cs|
  {
    if cs == [] then 0 else (if Active(cs[0], now) then 1 else 0) + ActiveCount(cs[1..], now)
  }

  /** Before every start or after every end, no campaign is active. */
  lemma {:induction false} NoneActiveOutside(cs: seq<Campaign>, now: int)
    requires forall k :: 0 <= k < |cs| ==> now < cs[k].inicio || cs[k].fim < now
    ensures ActiveCount(cs, now) == 0
  {
    if cs != [] {
      NoneActiveOutside(cs[1..], now);
    }
  }

  /** The "Campanhas Ativas" card shows 0 exactly when every campaign of
      the list is labelled "Finalizada" in the table. */
  lemma {:induction false} NoActiveCountAllFinished(cs: seq<Campaign>, now: int)
    ensures ActiveCount(cs, now) == 0 <==> forall k :: 0 <= k < |cs| ==> StatusLabel(cs[k], now) == "Finalizada"
  {
    if cs != [] {
      NoActiveCountAllFinished(cs[1..], now);
      assert forall k :: 1 <= k < |cs| ==> cs[k] == cs[1..][k - 1];
    }
  }

  /** getStatusColor: green for approved donations only. */
  function StatusColor(status: string): (r: string)
    ensures r == "bg-green-500/10 text-green-700 hover:bg-green-500/20" <==> status == Approved
  {
    if status == Approved then "bg-green-500/10 text-green-700 hover:bg-green-500/20"
    else "bg-accent/10 text-accent hover:bg-accent/20"
  }

  /** The donations handleUpdateAllStatuses queries: every one whose status
      is not approved, in order. */
  function NotApproved(ds: seq<Donation>): (r: seq<Donation>)
    ensures |r| <= |ds|
    ensures forall k :: 0 <= k < |r| ==> r[k].status != Approved
    ensures forall k :: 0 <= k < |ds| && ds[k].status != Approved ==> ds[k] in r
  {
    if ds == [] then []
    else
      var rest := NotApproved(ds[1..]);
      assert forall k :: 1 <= k < |ds| ==> ds[k] == ds[1..][k - 1];
      if ds[0].status != Approved then [ds[0]] + rest else rest
  }

  /** The queried donations of two lists are those of the first, then those
      of the second: the order of the list is kept. */
  lemma {:induction false} NotApprovedConcat(a: seq<Donation>, b: seq<Donation>)
    ensures NotApproved(a + b) == NotApproved(a) + NotApproved(b)
  {
    if a == [] {
      assert a + b == b;
    } else {
      assert (a + b)[0] == a[0];
      assert (a + b)[1..] == a[1..] + b;
      NotApprovedConcat(a[1..], b);
    }
  }

  /** A reply counts as an update when the call succeeded, returned a
      non-empty status, and that status differs from the stored one. None
      stands for an error or a thrown call. */
  predicate Changed(d: Donation, reply: Option<string>) {
    reply.Some? && reply.value != "" && reply.value != d.status
  }

  /** The number of updates counted over the first n queried donations. */
  function CountChanged(queried: seq<Donation>, replies: seq<Option<string>>, n: nat): (c: nat)
    requires n <= |queried| == |replies|
    ensures c <= n
  {
    if n == 0 then 0 else CountChanged(queried, replies, n - 1) + (if Changed(queried[n - 1], replies[n - 1]) then 1 else 0)
  }

  /** The count is all of them exactly when every reply changed its
      donation, and zero when every call failed. */
  lemma {:induction false} CountChangedAll(queried: seq<Donation>, replies: seq<Option<string>>, n: nat)
    requires n <= |queried| == |replies|
    ensures CountChanged(queried, replies, n) == n <==> forall k :: 0 <= k < n ==> Changed(queried[k], replies[k])
    ensures (forall k :: 0 <= k < n ==> replies[k].None?) ==> CountChanged(queried, replies, n) == 0
  {
    if n > 0 {
      CountChangedAll(queried, replies, n - 1);
    }
  }

  datatype UpdateOutcome = NothingPending | Updated(count: nat)

  /** handleUpdateAllStatuses, given the reply of get-mercadopago-order for
      each queried donation in turn. It returns the donations it queried and
      the outcome: NothingPending, with no call, when every donation is
      approved; otherwise the number of donations whose status changed. */
  method UpdateAllStatuses(donations: seq<Donation>, replies: seq<Option<string>>)
    returns (queried: seq<Donation>, outcome: UpdateOutcome)
    requires |replies| == |NotApproved(donations)|
    ensures queried == NotApproved(donations)
    ensures outcome == NothingPending <==> queried == []
    ensures outcome.Updated? ==> outcome.count == CountChanged(queried, replies, |queried|)
    ensures outcome.Updated? ==> 0 <= outcome.count <= |queried|
  {
    var pending := NotApproved(donations);
    if |pending| == 0 {
      return [], NothingPending;
    }
    queried := [];
    var updatedCount: nat := 0;
    var i := 0;
    while i < |pending|
      invariant 0 <= i <= |pending|
      invariant queried == pending[..i]
      invariant updatedCount == CountChanged(pending, replies, i)
      invariant updatedCount <= i
    {
      var donation := pending[i];
      queried := queried + [donation];
      var reply := replies[i];
      if reply.Some? && reply.value != "" && reply.value != donation.status {
        updatedCount := updatedCount + 1;
      }
      i := i + 1;
    }
    assert pending[..i] == pending;
    outcome := Updated(updatedCount);
  }
}
