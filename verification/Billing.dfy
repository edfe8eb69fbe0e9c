// Synchronising local billing rows with Stripe events (apps/billing/webhooks.py, models.py).
module Billing {
  import opened Options

  type RowPk = nat
  type TenantId = nat
  type PlanId = nat
  type SubId = string
  type InvoiceId = string

  // ---------------------------------------------------------------- what Stripe sends

  datatype Item = Item(priceId: string, product: string, interval: string)

  datatype StripeSub = StripeSub(
    id: SubId,
    customer: string,
    item: Option<Item>,                 // items.data[0]
    status: string,
    periodStart: Option<int>,
    periodEnd: Option<int>,
    cancelAtPeriodEnd: bool,
    canceledAt: Option<int>,
    trialEnd: Option<int>,
    metadataTenant: Option<TenantId>)

  datatype StripeInvoice = StripeInvoice(
    id: InvoiceId,
    subscription: Option<SubId>,
    amountPaid: int,                    // cents
    currency: Option<string>,
    status: Option<string>,
    pdfUrl: Option<string>,
    hostedUrl: Option<string>,
    periodStart: Option<int>,
    periodEnd: Option<int>)

  datatype Event =
    | Created(sub: StripeSub)
    | Updated(sub: StripeSub)
    | Deleted(id: SubId, canceledAt: Option<int>)
    | Paid(invoice: StripeInvoice)
    | PaymentFailed(invoice: StripeInvoice)
    | Other

  // ---------------------------------------------------------------- local rows

  datatype Status = Trialing | Active | PastDue | Canceled | Incomplete | Unpaid
  datatype Cycle = Monthly | Yearly

  datatype Sub = Sub(
    tenant: TenantId,
    stripeId: Option<SubId>,
    plan: PlanId,
    customer: string,
    status: Status,
    cycle: Cycle,
    periodStart: Option<int>,
    periodEnd: Option<int>,
    cancelAtPeriodEnd: bool,
    canceledAt: Option<int>,
    trialEnd: Option<int>)

  datatype Invoice = Invoice(
    subscription: RowPk, amount: real, currency: string, status: string, pdfUrl: string, hostedUrl: string,
    periodStart: int, periodEnd: int)

  datatype Db = Db(subs: map<RowPk, Sub>, invoices: map<InvoiceId, Invoice>, nextPk: RowPk)

  datatype Plan = Plan(id: PlanId, priceMonthly: string, priceYearly: string, product: string)
  datatype Config = Config(plans: seq<Plan>, tenants: set<TenantId>)

  // A handler either commits or raises; every handler writes at most one row, so a raise
  // leaves the tables as they were.
  datatype Outcome = Done(db: Db) | Raised

  // ---------------------------------------------------------------- mapping fields

  const STATUS_MAP: map<string, Status> := map[
    "trialing" := Trialing, "active" := Active, "past_due" := PastDue, "canceled" := Canceled,
    "incomplete" := Incomplete, "unpaid" := Unpaid, "incomplete_expired" := Canceled, "paused" := Canceled]

  function LocalStatus(status: string): Status {
    if status in STATUS_MAP then STATUS_MAP[status] else Incomplete
  }

  function FirstPlan(plans: seq<Plan>, matches: Plan -> bool): Option<PlanId> {
    if plans == [] then None
    else if matches(plans[0]) then Some(plans[0].id)
    else FirstPlan(plans[1..], matches)
  }

  function OrElse<T>(a: Option<T>, b: Option<T>): Option<T> {
    if a.Some? then a else b
  }

  function ResolvePlan(plans: seq<Plan>, item: Option<Item>): Option<PlanId> {
    if item.None? then None
    else
      var price, product := item.value.priceId, item.value.product;
      var byPrice := if price == "" then None else
        OrElse(FirstPlan(plans, (p: Plan) => p.priceMonthly == price), FirstPlan(plans, (p: Plan) => p.priceYearly == price));
      if byPrice.Some? || product == "" then byPrice else FirstPlan(plans, (p: Plan) => p.product == product)
  }

  function CycleOf(item: Option<Item>): Cycle {
    if item.Some? && item.value.interval == "year" then Yearly else Monthly
  }

  // A row refreshed from Stripe's data.
  function Refreshed(tenant: TenantId, s: StripeSub, plan: PlanId): Sub {
    Sub(tenant, Some(s.id), plan, s.customer, LocalStatus(s.status), CycleOf(s.item),
        s.periodStart, s.periodEnd, s.cancelAtPeriodEnd, s.canceledAt, s.trialEnd)
  }

  // ---------------------------------------------------------------- handlers

  function BySub(db: Db, id: SubId): set<RowPk> {
    set pk | pk in db.subs && db.subs[pk].stripeId == Some(id)
  }

  function ByTenant(db: Db, t: TenantId): set<RowPk> {
    set pk | pk in db.subs && db.subs[pk].tenant == t
  }

  ghost function First(s: set<RowPk>): (r: Option<RowPk>)
    ensures r.None? <==> s == {}
    ensures r.Some? ==> r.value in s
  {
    if s == {} then None else var pk :| pk in s; Some(pk)
  }

  // The unique constraints on tenant and stripe_subscription_id, for writing `row` at `pk`.
  predicate Unique(db: Db, pk: RowPk, row: Sub) {
    && ByTenant(db, row.tenant) <= {pk}
    && (row.stripeId.Some? ==> BySub(db, row.stripeId.value) <= {pk})
  }

  function Write(db: Db, pk: RowPk, row: Sub): Outcome {
    if !Unique(db, pk, row) then Raised
    else Done(db.(subs := db.subs[pk := row], nextPk := if pk == db.nextPk then pk + 1 else db.nextPk))
  }

  ghost function Sync(cfg: Config, db: Db, s: StripeSub): Outcome {
    var plan := ResolvePlan(cfg.plans, s.item);
    if plan.None? then Done(db)
    else if s.metadataTenant.Some? && s.metadataTenant.value !in cfg.tenants then Done(db)
    else
      var existing := First(BySub(db, s.id));
      match existing
      case Some(pk) =>
        Write(db, pk, Refreshed(s.metadataTenant.GetOr(db.subs[pk].tenant), s, plan.value))
      case None =>
        if s.metadataTenant.None? then Done(db)
        else
          var t := s.metadataTenant.value;
          var current := First(ByTenant(db, t));
          Write(db, if current.Some? then current.value else db.nextPk, Refreshed(t, s, plan.value))
  }

  ghost function Cancel(db: Db, id: SubId, canceledAt: Option<int>): Outcome {
    var existing := First(BySub(db, id));
    if existing.None? then Done(db)
    else
      var pk := existing.value;
      Done(db.(subs := db.subs[pk := db.subs[pk].(status := Canceled, canceledAt := canceledAt)]))
  }

  // period_start and period_end are NOT NULL columns.
  ghost function SyncInvoice(db: Db, inv: StripeInvoice): Outcome {
    if inv.subscription.None? then Done(db)
    else
      var existing := First(BySub(db, inv.subscription.value));
      if existing.None? then Done(db)
      else if inv.periodStart.None? || inv.periodEnd.None? then Raised
      else Done(db.(invoices := db.invoices[inv.id :=
                    Invoice(existing.value, inv.amountPaid as real / 100.0,
                            inv.currency.GetOr("usd"), inv.status.GetOr("unknown"),
                            inv.pdfUrl.GetOr(""), inv.hostedUrl.GetOr(""),
                            inv.periodStart.value, inv.periodEnd.value)]))
  }

  ghost function Handle(cfg: Config, db: Db, e: Event): Outcome {
    match e
    case Created(s) => Sync(cfg, db, s)
    case Updated(s) => Sync(cfg, db, s)
    case Deleted(id, at) => Cancel(db, id, at)
    case Paid(inv) => SyncInvoice(db, inv)
    case PaymentFailed(inv) => SyncInvoice(db, inv)
    case Other => Done(db)
  }

  // ---------------------------------------------------------------- invariants

  ghost predicate KeysUnique(db: Db) {
    && (forall a, b :: a in db.subs && b in db.subs && a != b ==> db.subs[a].tenant != db.subs[b].tenant)
    && (forall a, b :: a in db.subs && b in db.subs && a != b && db.subs[a].stripeId.Some? ==>
          db.subs[a].stripeId != db.subs[b].stripeId)
  }

  ghost predicate Valid(db: Db) {
    && KeysUnique(db)
    && (forall pk :: pk in db.subs ==> pk < db.nextPk)
    && (forall i :: i in db.invoices ==> db.invoices[i].subscription in db.subs)
  }

  // One subscription id always carries the same metadata tenant.
  ghost predicate Owned(owner: map<SubId, TenantId>, db: Db) {
    forall pk :: pk in db.subs && db.subs[pk].stripeId.Some? ==>
      db.subs[pk].stripeId.value in owner && owner[db.subs[pk].stripeId.value] == db.subs[pk].tenant
  }

  predicate Consistent(owner: map<SubId, TenantId>, e: Event) {
    (e.Created? || e.Updated?) && e.sub.metadataTenant.Some? ==>
      e.sub.id in owner && owner[e.sub.id] == e.sub.metadataTenant.value
  }

  lemma FirstIsUnique(db: Db, pk: RowPk)
    requires KeysUnique(db) && pk in db.subs
    ensures ByTenant(db, db.subs[pk].tenant) == {pk} && First(ByTenant(db, db.subs[pk].tenant)) == Some(pk)
    ensures db.subs[pk].stripeId.Some? ==>
              BySub(db, db.subs[pk].stripeId.value) == {pk} && First(BySub(db, db.subs[pk].stripeId.value)) == Some(pk)
  {
    assert pk in ByTenant(db, db.subs[pk].tenant);
    if db.subs[pk].stripeId.Some? {
      assert pk in BySub(db, db.subs[pk].stripeId.value);
    }
  }

  lemma WriteKeepsValid(db: Db, pk: RowPk, row: Sub)
    requires Valid(db) && pk <= db.nextPk && Write(db, pk, row).Done?
    ensures Valid(Write(db, pk, row).db)
  {
    var db' := Write(db, pk, row).db;
    forall x | x in db.subs && x != pk
      ensures db.subs[x].tenant != row.tenant && (row.stripeId.Some? ==> db.subs[x].stripeId != row.stripeId)
    {
      assert x !in ByTenant(db, row.tenant);
      if row.stripeId.Some? {
        assert x !in BySub(db, row.stripeId.value);
      }
    }
  }

  lemma TenantFree(db: Db, t: TenantId, pk: RowPk)
    ensures ByTenant(db, t) <= {pk} <==> forall x :: x in db.subs && db.subs[x].tenant == t ==> x == pk
  {
    if ByTenant(db, t) <= {pk} {
      forall x | x in db.subs && db.subs[x].tenant == t ensures x == pk {
        assert x in ByTenant(db, t);
      }
    }
  }

  // The row a sync writes, if it writes one.
  ghost function Target(cfg: Config, db: Db, s: StripeSub): Option<(RowPk, TenantId)> {
    if ResolvePlan(cfg.plans, s.item).None? || (s.metadataTenant.Some? && s.metadataTenant.value !in cfg.tenants)
    then None
    else
      var existing := First(BySub(db, s.id));
      if existing.Some? then Some((existing.value, s.metadataTenant.GetOr(db.subs[existing.value].tenant)))
      else if s.metadataTenant.None? then None
      else Some((First(ByTenant(db, s.metadataTenant.value)).GetOr(db.nextPk), s.metadataTenant.value))
  }

  lemma SyncWritesTarget(cfg: Config, db: Db, s: StripeSub)
    ensures Sync(cfg, db, s) ==
      match Target(cfg, db, s)
      case None => Done(db)
      case Some((pk, t)) => Write(db, pk, Refreshed(t, s, ResolvePlan(cfg.plans, s.item).value))
  {}

  /** Without any assumption on metadata: a sync meets a uniqueness violation exactly when its
      subscription id already belongs to a row of another tenant while the metadata tenant has a
      row of its own. Created rows and repointed rows never violate a key. */
  lemma SyncRaisesExactlyWhen(cfg: Config, db: Db, s: StripeSub)
    requires Valid(db)
    ensures Sync(cfg, db, s).Raised? <==>
      && ResolvePlan(cfg.plans, s.item).Some?
      && s.metadataTenant.Some? && s.metadataTenant.value in cfg.tenants
      && exists pk, other :: pk in db.subs && other in db.subs && db.subs[pk].stripeId == Some(s.id)
                             && db.subs[pk].tenant != s.metadataTenant.value
                             && db.subs[other].tenant == s.metadataTenant.value
  {
    SyncWritesTarget(cfg, db, s);
    var target := Target(cfg, db, s);
    if target.Some? {
      var (pk, t) := target.value;
      TenantFree(db, t, pk);
      if First(BySub(db, s.id)).Some? {
        FirstIsUnique(db, pk);
      } else {
        assert forall x :: x in db.subs && db.subs[x].stripeId == Some(s.id) ==> x in BySub(db, s.id);
        if First(ByTenant(db, t)).Some? {
          FirstIsUnique(db, pk);
        }
      }
    }
  }

  lemma SyncKeepsValid(cfg: Config, db: Db, s: StripeSub)
    requires Valid(db) && Sync(cfg, db, s).Done?
    ensures Valid(Sync(cfg, db, s).db)
  {
    SyncWritesTarget(cfg, db, s);
    var target := Target(cfg, db, s);
    if target.Some? {
      WriteKeepsValid(db, target.value.0, Refreshed(target.value.1, s, ResolvePlan(cfg.plans, s.item).value));
    }
  }

  // What an event may do to the subscription rows of a consistent database.
  ghost predicate KeepsRows(db: Db, db': Db) {
    && (forall pk :: pk in db.subs ==> pk in db'.subs && db'.subs[pk].tenant == db.subs[pk].tenant)
    && (forall i :: i in db.invoices ==> i in db'.invoices)
  }

  lemma WriteIsSafe(owner: map<SubId, TenantId>, db: Db, pk: RowPk, row: Sub)
    requires Valid(db) && Owned(owner, db) && Write(db, pk, row).Done?
    requires row.stripeId.Some? && row.stripeId.value in owner && owner[row.stripeId.value] == row.tenant
    requires pk in db.subs ==> db.subs[pk].tenant == row.tenant
    ensures var db' := Write(db, pk, row).db;
            Owned(owner, db') && KeepsRows(db, db') && db'.invoices == db.invoices
  {}

  lemma TargetKeepsTenant(cfg: Config, owner: map<SubId, TenantId>, db: Db, s: StripeSub)
    requires Valid(db) && Owned(owner, db) && Consistent(owner, Created(s)) && Target(cfg, db, s).Some?
    ensures var (pk, t) := Target(cfg, db, s).value;
            s.id in owner && owner[s.id] == t && (pk in db.subs ==> db.subs[pk].tenant == t)
  {}

  lemma SyncIsSafe(cfg: Config, owner: map<SubId, TenantId>, db: Db, s: StripeSub)
    requires Valid(db) && Owned(owner, db) && Consistent(owner, Created(s))
    ensures Sync(cfg, db, s).Done?
    ensures var db' := Sync(cfg, db, s).db; Valid(db') && Owned(owner, db') && KeepsRows(db, db')
                                            && db'.invoices == db.invoices
  {
    SyncRaisesExactlyWhen(cfg, db, s);
    SyncKeepsValid(cfg, db, s);
    SyncWritesTarget(cfg, db, s);
    var target := Target(cfg, db, s);
    if target.Some? {
      TargetKeepsTenant(cfg, owner, db, s);
      WriteIsSafe(owner, db, target.value.0, Refreshed(target.value.1, s, ResolvePlan(cfg.plans, s.item).value));
    }
  }

  lemma CancelIsSafe(owner: map<SubId, TenantId>, db: Db, id: SubId, at: Option<int>)
    requires Valid(db) && Owned(owner, db)
    ensures var db' := Cancel(db, id, at).db; Valid(db') && Owned(owner, db') && KeepsRows(db, db')
  {}

  /** A delete cancels exactly the row that carries the deleted id and keeps everything else. */
  lemma DeleteCancelsOnlyItsRow(cfg: Config, db: Db, id: SubId, at: Option<int>, pk: RowPk)
    requires Valid(db) && pk in db.subs
    ensures Handle(cfg, db, Deleted(id, at)).Done?
    ensures var db' := Handle(cfg, db, Deleted(id, at)).db;
      && db'.invoices == db.invoices && db'.subs.Keys == db.subs.Keys
      && db'.subs[pk] == if db.subs[pk].stripeId == Some(id) then db.subs[pk].(status := Canceled, canceledAt := at)
                         else db.subs[pk]
  {
    FirstIsUnique(db, pk);
  }

  // ---------------------------------------------------------------- what a row says

  // Each local status and the Stripe statuses it stands for.
  predicate StatusSays(local: Status, stripe: string) {
    && (local == Trialing <==> stripe == "trialing")
    && (local == Active <==> stripe == "active")
    && (local == PastDue <==> stripe == "past_due")
    && (local == Unpaid <==> stripe == "unpaid")
    && (local == Canceled <==> stripe in {"canceled", "incomplete_expired", "paused"})
    && (local == Incomplete <==>
          stripe !in {"trialing", "active", "past_due", "unpaid", "canceled", "incomplete_expired", "paused"})
  }

  lemma LocalStatusSays(stripe: string)
    ensures StatusSays(LocalStatus(stripe), stripe)
  {}

  // The first plan, in table order, that has this price or product.
  predicate FirstMonthly(plans: seq<Plan>, price: string, i: int) {
    && 0 <= i < |plans| && plans[i].priceMonthly == price
    && forall j :: 0 <= j < i ==> plans[j].priceMonthly != price
  }

  predicate FirstYearly(plans: seq<Plan>, price: string, i: int) {
    && 0 <= i < |plans| && plans[i].priceYearly == price
    && forall j :: 0 <= j < i ==> plans[j].priceYearly != price
  }

  predicate FirstProduct(plans: seq<Plan>, product: string, i: int) {
    && 0 <= i < |plans| && plans[i].product == product
    && forall j :: 0 <= j < i ==> plans[j].product != product
  }

  // A plan has the item's price, monthly or yearly.
  ghost predicate Priced(plans: seq<Plan>, price: string) {
    price != "" && exists i :: 0 <= i < |plans| && (plans[i].priceMonthly == price || plans[i].priceYearly == price)
  }

  // The plan an item stands for: by monthly price, else by yearly price, else by product.
  ghost predicate PlanIs(plans: seq<Plan>, item: Option<Item>, plan: PlanId) {
    && item.Some?
    && var price, product := item.value.priceId, item.value.product;
       || (price != "" && exists i :: FirstMonthly(plans, price, i) && plans[i].id == plan)
       || (price != "" && (forall i :: 0 <= i < |plans| ==> plans[i].priceMonthly != price)
           && exists i :: FirstYearly(plans, price, i) && plans[i].id == plan)
       || (!Priced(plans, price) && product != "" && exists i :: FirstProduct(plans, product, i) && plans[i].id == plan)
  }

  // What FirstPlan finds is the first match.
  lemma {:induction false} FirstPlanIs(plans: seq<Plan>, matches: Plan -> bool)
    ensures FirstPlan(plans, matches).None? <==> forall i :: 0 <= i < |plans| ==> !matches(plans[i])
    ensures FirstPlan(plans, matches).Some? ==>
      exists i :: 0 <= i < |plans| && matches(plans[i]) && plans[i].id == FirstPlan(plans, matches).value
                  && forall j :: 0 <= j < i ==> !matches(plans[j])
    decreases |plans|
  {
    if plans != [] && !matches(plans[0]) {
      FirstPlanIs(plans[1..], matches);
      assert forall i :: 0 <= i < |plans| - 1 ==> plans[1..][i] == plans[i + 1];
      if FirstPlan(plans[1..], matches).Some? {
        var i :| 0 <= i < |plans| - 1 && matches(plans[1..][i]) && plans[1..][i].id == FirstPlan(plans[1..], matches).value
                 && forall j :: 0 <= j < i ==> !matches(plans[1..][j]);
        assert matches(plans[i + 1]);
        assert forall j :: 1 <= j < i + 1 ==> plans[j] == plans[1..][j - 1];
      } else {
        assert forall j :: 1 <= j < |plans| ==> plans[j] == plans[1..][j - 1];
      }
    }
  }

  lemma ByMonthlyIs(plans: seq<Plan>, price: string)
    ensures var r := FirstPlan(plans, (p: Plan) => p.priceMonthly == price);
      && (r.None? <==> forall i :: 0 <= i < |plans| ==> plans[i].priceMonthly != price)
      && (r.Some? ==> exists i :: FirstMonthly(plans, price, i) && plans[i].id == r.value)
  {
    FirstPlanIs(plans, (p: Plan) => p.priceMonthly == price);
    if FirstPlan(plans, (p: Plan) => p.priceMonthly == price).Some? {
      var r := FirstPlan(plans, (p: Plan) => p.priceMonthly == price).value;
      var i :| 0 <= i < |plans| && plans[i].priceMonthly == price && plans[i].id == r
               && forall j :: 0 <= j < i ==> !((p: Plan) => p.priceMonthly == price)(plans[j]);
      assert FirstMonthly(plans, price, i);
    }
  }

  lemma ByYearlyIs(plans: seq<Plan>, price: string)
    ensures var r := FirstPlan(plans, (p: Plan) => p.priceYearly == price);
      && (r.None? <==> forall i :: 0 <= i < |plans| ==> plans[i].priceYearly != price)
      && (r.Some? ==> exists i :: FirstYearly(plans, price, i) && plans[i].id == r.value)
  {
    FirstPlanIs(plans, (p: Plan) => p.priceYearly == price);
    if FirstPlan(plans, (p: Plan) => p.priceYearly == price).Some? {
      var r := FirstPlan(plans, (p: Plan) => p.priceYearly == price).value;
      var i :| 0 <= i < |plans| && plans[i].priceYearly == price && plans[i].id == r
               && forall j :: 0 <= j < i ==> !((p: Plan) => p.priceYearly == price)(plans[j]);
      assert FirstYearly(plans, price, i);
    }
  }

  lemma ByProductIs(plans: seq<Plan>, product: string)
    ensures var r := FirstPlan(plans, (p: Plan) => p.product == product);
      && (r.None? <==> forall i :: 0 <= i < |plans| ==> plans[i].product != product)
      && (r.Some? ==> exists i :: FirstProduct(plans, product, i) && plans[i].id == r.value)
  {
    FirstPlanIs(plans, (p: Plan) => p.product == product);
    if FirstPlan(plans, (p: Plan) => p.product == product).Some? {
      var r := FirstPlan(plans, (p: Plan) => p.product == product).value;
      var i :| 0 <= i < |plans| && plans[i].product == product && plans[i].id == r
               && forall j :: 0 <= j < i ==> !((p: Plan) => p.product == product)(plans[j]);
      assert FirstProduct(plans, product, i);
    }
  }

  /** The plan of an item is found by monthly price, else by yearly price, else by product, in each case
      the first in table order; there is none exactly when none of the three is on any plan. */
  lemma PlanOfItem(plans: seq<Plan>, item: Option<Item>)
    ensures ResolvePlan(plans, item).Some? ==> PlanIs(plans, item, ResolvePlan(plans, item).value)
    ensures ResolvePlan(plans, item).None? <==>
      || item.None?
      || (!Priced(plans, item.value.priceId)
          && (item.value.product == "" || forall i :: 0 <= i < |plans| ==> plans[i].product != item.value.product))
  {
    if item.Some? {
      ByMonthlyIs(plans, item.value.priceId);
      ByYearlyIs(plans, item.value.priceId);
      ByProductIs(plans, item.value.product);
    }
  }

  // The row mirrors Stripe's subscription, column by column.
  ghost predicate Mirrors(row: Sub, s: StripeSub, tenant: TenantId, plans: seq<Plan>) {
    && row.tenant == tenant && row.stripeId == Some(s.id) && row.customer == s.customer
    && row.periodStart == s.periodStart && row.periodEnd == s.periodEnd
    && row.cancelAtPeriodEnd == s.cancelAtPeriodEnd && row.canceledAt == s.canceledAt && row.trialEnd == s.trialEnd
    && StatusSays(row.status, s.status)
    && (row.cycle == Yearly <==> exists i :: s.item == Some(i) && i.interval == "year")
    && PlanIs(plans, s.item, row.plan)
  }

  lemma RefreshedMirrors(cfg: Config, tenant: TenantId, s: StripeSub)
    requires ResolvePlan(cfg.plans, s.item).Some?
    ensures Mirrors(Refreshed(tenant, s, ResolvePlan(cfg.plans, s.item).value), s, tenant, cfg.plans)
  {
    LocalStatusSays(s.status);
    PlanOfItem(cfg.plans, s.item);
    assert s.item == Some(s.item.value);
  }

  /** A sync that finds plan and tenant leaves exactly one row under the subscription id, and it
      mirrors Stripe's data column by column. */
  lemma SyncedRowMirrorsStripe(cfg: Config, db: Db, s: StripeSub)
    requires Valid(db) && Sync(cfg, db, s).Done? && ResolvePlan(cfg.plans, s.item).Some?
    requires s.metadataTenant.Some? && s.metadataTenant.value in cfg.tenants
    ensures var db' := Sync(cfg, db, s).db;
      exists pk :: pk in db'.subs && BySub(db', s.id) == {pk}
                   && Mirrors(db'.subs[pk], s, s.metadataTenant.value, cfg.plans)
  {
    SyncKeepsValid(cfg, db, s);
    SyncWritesTarget(cfg, db, s);
    RefreshedMirrors(cfg, s.metadataTenant.value, s);
    var pk := Target(cfg, db, s).value.0;
    var db' := Sync(cfg, db, s).db;
    assert pk in db'.subs && db'.subs[pk].stripeId == Some(s.id);
    FirstIsUnique(db', pk);
  }

  /** An update without metadata keeps the tenant of the row it finds. */
  lemma UpdateWithoutMetadataMirrors(cfg: Config, db: Db, s: StripeSub, pk: RowPk)
    requires Valid(db) && ResolvePlan(cfg.plans, s.item).Some? && s.metadataTenant.None?
    requires pk in db.subs && db.subs[pk].stripeId == Some(s.id)
    ensures Sync(cfg, db, s).Done?
    ensures var db' := Sync(cfg, db, s).db;
      && db'.subs.Keys == db.subs.Keys && db'.subs - {pk} == db.subs - {pk}
      && Mirrors(db'.subs[pk], s, db.subs[pk].tenant, cfg.plans)
  {
    SyncRaisesExactlyWhen(cfg, db, s);
    FirstIsUnique(db, pk);
    RefreshedMirrors(cfg, db.subs[pk].tenant, s);
  }

  /** A synchronised invoice says what the event says: the amount in units for the cents sent, each
      other column the event's or its default, attached to the row of its subscription. */
  lemma SyncedInvoiceMirrorsStripe(db: Db, inv: StripeInvoice, pk: RowPk)
    requires Valid(db) && pk in db.subs && inv.subscription.Some? && db.subs[pk].stripeId == inv.subscription
    ensures SyncInvoice(db, inv).Done? <==> inv.periodStart.Some? && inv.periodEnd.Some?
    ensures SyncInvoice(db, inv).Done? ==>
      var db' := SyncInvoice(db, inv).db;
      && db'.subs == db.subs && db'.invoices - {inv.id} == db.invoices - {inv.id} && inv.id in db'.invoices
      && var row := db'.invoices[inv.id];
      && row.subscription == pk && row.amount * 100.0 == inv.amountPaid as real
      && (inv.currency.Some? ==> row.currency == inv.currency.value) && (inv.currency.None? ==> row.currency == "usd")
      && (inv.status.Some? ==> row.status == inv.status.value) && (inv.status.None? ==> row.status == "unknown")
      && (inv.pdfUrl.Some? ==> row.pdfUrl == inv.pdfUrl.value) && (inv.pdfUrl.None? ==> row.pdfUrl == "")
      && (inv.hostedUrl.Some? ==> row.hostedUrl == inv.hostedUrl.value) && (inv.hostedUrl.None? ==> row.hostedUrl == "")
      && inv.periodStart == Some(row.periodStart) && inv.periodEnd == Some(row.periodEnd)
  {
    FirstIsUnique(db, pk);
  }

  lemma HandleIsSafe(cfg: Config, owner: map<SubId, TenantId>, db: Db, e: Event)
    requires Valid(db) && Owned(owner, db) && Consistent(owner, e)
    ensures Handle(cfg, db, e).Raised? ==> e.Paid? || e.PaymentFailed?
    ensures Handle(cfg, db, e).Done? ==>
      var db' := Handle(cfg, db, e).db; Valid(db') && Owned(owner, db') && KeepsRows(db, db')
  {
    match e
    case Created(s) => SyncIsSafe(cfg, owner, db, s);
    case Updated(s) =>
      assert Consistent(owner, Created(s));
      SyncIsSafe(cfg, owner, db, s);
    case Deleted(id, at) => CancelIsSafe(owner, db, id, at);
    case _ =>
  }

  // Applying a sequence of events; a raising handler changes nothing.
  ghost function Replay(cfg: Config, db: Db, es: seq<Event>): Db
    decreases |es|
  {
    if es == [] then db
    else
      var before := Replay(cfg, db, es[..|es| - 1]);
      match Handle(cfg, before, es[|es| - 1])
      case Done(db') => db'
      case Raised => before
  }

  lemma {:induction false} ReplayIsSafe(cfg: Config, owner: map<SubId, TenantId>, db: Db, es: seq<Event>)
    requires Valid(db) && Owned(owner, db)
    requires forall i :: 0 <= i < |es| ==> Consistent(owner, es[i])
    ensures var db' := Replay(cfg, db, es); Valid(db') && Owned(owner, db') && KeepsRows(db, db')
    decreases |es|
  {
    if es != [] {
      ReplayIsSafe(cfg, owner, db, es[..|es| - 1]);
      HandleIsSafe(cfg, owner, Replay(cfg, db, es[..|es| - 1]), es[|es| - 1]);
    }
  }

  /** Over every run of created, updated, deleted and invoice events with consistent metadata:
      at most one row per tenant and per subscription id, no uniqueness violation ever, and rows
      keep their identity and tenant, so every invoice stays attached to an existing row. */
  lemma RunsKeepKeys(cfg: Config, owner: map<SubId, TenantId>, db: Db, es: seq<Event>)
    requires Valid(db) && Owned(owner, db)
    requires forall i :: 0 <= i < |es| ==> Consistent(owner, es[i])
    ensures var db' := Replay(cfg, db, es); Valid(db') && Owned(owner, db') && KeepsRows(db, db')
    ensures forall i :: 0 <= i < |es| && Handle(cfg, Replay(cfg, db, es[..i]), es[i]).Raised? ==>
              es[i].Paid? || es[i].PaymentFailed?
  {
    ReplayIsSafe(cfg, owner, db, es);
    forall i | 0 <= i < |es| && Handle(cfg, Replay(cfg, db, es[..i]), es[i]).Raised?
      ensures es[i].Paid? || es[i].PaymentFailed?
    {
      ReplayIsSafe(cfg, owner, db, es[..i]);
      HandleIsSafe(cfg, owner, Replay(cfg, db, es[..i]), es[i]);
    }
  }

  /** Synchronising twice from the same data is the same as once. */
  lemma SyncIsIdempotent(cfg: Config, db: Db, s: StripeSub)
    requires Valid(db) && Sync(cfg, db, s).Done?
    ensures Sync(cfg, Sync(cfg, db, s).db, s) == Sync(cfg, db, s)
  {
    var db' := Sync(cfg, db, s).db;
    SyncKeepsValid(cfg, db, s);
    SyncWritesTarget(cfg, db, s);
    SyncWritesTarget(cfg, db', s);
    if Target(cfg, db, s).Some? {
      var pk := Target(cfg, db, s).value.0;
      assert pk in db'.subs && db'.subs[pk].stripeId == Some(s.id);
      FirstIsUnique(db', pk);
      assert db'.subs[pk := db'.subs[pk]] == db'.subs;
    }
  }

  /** Re-subscribing repoints the tenant's row in place: the row keeps its key and its invoices,
      and a late delete of the replaced id leaves everything unchanged. */
  lemma ResubscribeRepointsTheRow(cfg: Config, db: Db, s: StripeSub, pk: RowPk, at: Option<int>)
    requires Valid(db) && pk in db.subs && BySub(db, s.id) == {}
    requires s.metadataTenant == Some(db.subs[pk].tenant) && db.subs[pk].tenant in cfg.tenants
    requires ResolvePlan(cfg.plans, s.item).Some?
    ensures var o := Sync(cfg, db, s);
      && o.Done? && o.db.subs.Keys == db.subs.Keys && o.db.subs - {pk} == db.subs - {pk}
      && o.db.subs[pk] == Refreshed(db.subs[pk].tenant, s, ResolvePlan(cfg.plans, s.item).value)
      && o.db.invoices == db.invoices
      && (db.subs[pk].stripeId.Some? ==> Cancel(o.db, db.subs[pk].stripeId.value, at) == Done(o.db))
  {
    FirstIsUnique(db, pk);
    var db' := Sync(cfg, db, s).db;
    if db.subs[pk].stripeId.Some? {
      var old' := db.subs[pk].stripeId.value;
      assert pk !in BySub(db, s.id);
      assert BySub(db', old') == {};
    }
  }

  // ---------------------------------------------------------------- the webhook

  const LIFETIME := 60 * 60 * 24 * 7

  // One delivery: `transient` says that the handler fails before writing anything.
  datatype Delivery = Delivery(eventId: string, event: Event, at: int, transient: bool)

  datatype Response = Handled | Skipped | Failed | Unhandled

  // Replay markers hold their expiry time.
  datatype Service = Service(db: Db, markers: map<string, int>)

  predicate Marked(markers: map<string, int>, id: string, at: int) {
    id != "" && id in markers && at < markers[id]
  }

  ghost function Respond(cfg: Config, s: Service, d: Delivery): Response {
    if Marked(s.markers, d.eventId, d.at) then Skipped
    else if d.event.Other? then Unhandled
    else if d.transient || Handle(cfg, s.db, d.event).Raised? then Failed
    else Handled
  }

  ghost function Receive(cfg: Config, s: Service, d: Delivery): Service {
    if Respond(cfg, s, d) != Handled then s
    else Service(Handle(cfg, s.db, d.event).db,
                 if d.eventId == "" then s.markers else s.markers[d.eventId := d.at + LIFETIME])
  }

  ghost function ReceiveAll(cfg: Config, s: Service, ds: seq<Delivery>): Service
    decreases |ds|
  {
    if ds == [] then s else Receive(cfg, ReceiveAll(cfg, s, ds[..|ds| - 1]), ds[|ds| - 1])
  }

  // The answer to delivery i.
  ghost function ResponseAt(cfg: Config, s: Service, ds: seq<Delivery>, i: nat): Response
    requires i < |ds|
  {
    Respond(cfg, ReceiveAll(cfg, s, ds[..i]), ds[i])
  }

  lemma ReplaySnoc(cfg: Config, db: Db, es: seq<Event>, e: Event)
    ensures Replay(cfg, db, es + [e]) ==
      match Handle(cfg, Replay(cfg, db, es), e)
      case Done(db') => db'
      case Raised => Replay(cfg, db, es)
  {
    assert (es + [e])[..|es|] == es;
  }

  // Every redelivery of an id arrives before the marker of any earlier delivery would expire.
  ghost predicate WithinLifetime(ds: seq<Delivery>) {
    forall i, j :: 0 <= i < j < |ds| && ds[i].eventId == ds[j].eventId != "" ==> ds[j].at < ds[i].at + LIFETIME
  }

  ghost predicate HandledBefore(cfg: Config, s: Service, ds: seq<Delivery>, k: nat, id: string)
    requires k <= |ds|
  {
    exists j :: 0 <= j < k && ds[j].eventId == id && ResponseAt(cfg, s, ds, j) == Handled
  }

  ghost predicate StampedBy(ds: seq<Delivery>, k: nat, id: string, expiry: int)
    requires k <= |ds|
  {
    exists j :: 0 <= j < k && ds[j].eventId == id && expiry == ds[j].at + LIFETIME
  }

  // The markers are those of the ids handled among the first k deliveries, with their expiry.
  ghost predicate MarkersTrue(cfg: Config, s: Service, ds: seq<Delivery>, k: nat, markers: map<string, int>)
    requires k <= |ds|
  {
    && (forall id :: id != "" ==> (id in markers <==> HandledBefore(cfg, s, ds, k, id)))
    && (forall id :: id in markers ==> StampedBy(ds, k, id, markers[id]))
  }

  lemma HandledBeforeStep(cfg: Config, s: Service, ds: seq<Delivery>, k: nat, id: string)
    requires k < |ds|
    ensures HandledBefore(cfg, s, ds, k + 1, id)
       <==> HandledBefore(cfg, s, ds, k, id) || (ds[k].eventId == id && ResponseAt(cfg, s, ds, k) == Handled)
  {
    if HandledBefore(cfg, s, ds, k, id) {
      var j :| 0 <= j < k && ds[j].eventId == id && ResponseAt(cfg, s, ds, j) == Handled;
    }
  }

  lemma StampedByStep(ds: seq<Delivery>, k: nat, id: string, expiry: int)
    requires k < |ds|
    ensures StampedBy(ds, k, id, expiry) ==> StampedBy(ds, k + 1, id, expiry)
    ensures StampedBy(ds, k + 1, ds[k].eventId, ds[k].at + LIFETIME)
  {
    if StampedBy(ds, k, id, expiry) {
      var j :| 0 <= j < k && ds[j].eventId == id && expiry == ds[j].at + LIFETIME;
    }
  }

  lemma MarkersStep(cfg: Config, s: Service, ds: seq<Delivery>, k: nat)
    requires k < |ds| && MarkersTrue(cfg, s, ds, k, ReceiveAll(cfg, s, ds[..k]).markers)
    ensures MarkersTrue(cfg, s, ds, k + 1, ReceiveAll(cfg, s, ds[..k + 1]).markers)
  {
    assert ds[..k + 1][..k] == ds[..k];
    var before := ReceiveAll(cfg, s, ds[..k]);
    var after := ReceiveAll(cfg, s, ds[..k + 1]).markers;
    assert after == Receive(cfg, before, ds[k]).markers;
    forall id | id != "" ensures id in after <==> HandledBefore(cfg, s, ds, k + 1, id) {
      HandledBeforeStep(cfg, s, ds, k, id);
    }
    forall id | id in after ensures StampedBy(ds, k + 1, id, after[id]) {
      StampedByStep(ds, k, id, after[id]);
    }
  }

  lemma MarkersAreTrue(cfg: Config, s: Service, ds: seq<Delivery>, k: nat)
    requires k <= |ds| && s.markers == map[]
    ensures MarkersTrue(cfg, s, ds, k, ReceiveAll(cfg, s, ds[..k]).markers)
  {
    for i := 0 to k
      invariant MarkersTrue(cfg, s, ds, i, ReceiveAll(cfg, s, ds[..i]).markers)
    {
      MarkersStep(cfg, s, ds, i);
    }
  }

  /** Inside the marker lifetime the webhook skips a delivery exactly when an earlier delivery of
      the same event id was handled. */
  lemma SkippedExactlyAfterSuccess(cfg: Config, s: Service, ds: seq<Delivery>, i: nat)
    requires i < |ds| && s.markers == map[] && WithinLifetime(ds)
    ensures ResponseAt(cfg, s, ds, i) == Skipped <==>
              ds[i].eventId != "" && HandledBefore(cfg, s, ds, i, ds[i].eventId)
    ensures ResponseAt(cfg, s, ds, i) == Handled <==>
              !(ds[i].eventId != "" && HandledBefore(cfg, s, ds, i, ds[i].eventId))
              && !ds[i].event.Other? && !ds[i].transient
              && Handle(cfg, ReceiveAll(cfg, s, ds[..i]).db, ds[i].event).Done?
  {
    MarkersAreTrue(cfg, s, ds, i);
    var markers := ReceiveAll(cfg, s, ds[..i]).markers;
    var id := ds[i].eventId;
    if id in markers {
      assert StampedBy(ds, i, id, markers[id]);
      var j :| 0 <= j < i && ds[j].eventId == id && markers[id] == ds[j].at + LIFETIME;
      assert id != "" ==> ds[i].at < ds[j].at + LIFETIME;
    }
  }

  // ---------------------------------------------------------------- replay refinement

  // The reference knows no markers and no clock: of a sequence of deliveries it keeps those that
  // are the first success of their event id; without an id every success counts.
  predicate Delivered(kept: seq<Delivery>, id: string) {
    id != "" && exists k :: 0 <= k < |kept| && kept[k].eventId == id
  }

  function Events(ds: seq<Delivery>): seq<Event> {
    if ds == [] then [] else Events(ds[..|ds| - 1]) + [ds[|ds| - 1].event]
  }

  ghost predicate Succeeds(cfg: Config, db: Db, d: Delivery) {
    !d.event.Other? && !d.transient && Handle(cfg, db, d.event).Done?
  }

  // The reference after one more delivery.
  ghost function Keep(cfg: Config, db: Db, kept: seq<Delivery>, d: Delivery): seq<Delivery> {
    if !Delivered(kept, d.eventId) && Succeeds(cfg, Replay(cfg, db, Events(kept)), d) then kept + [d] else kept
  }

  ghost function FirstSuccesses(cfg: Config, db: Db, ds: seq<Delivery>): seq<Delivery>
    decreases |ds|
  {
    if ds == [] then []
    else
      Keep(cfg, db, FirstSuccesses(cfg, db, ds[..|ds| - 1]), ds[|ds| - 1])
  }

  lemma EventsSnoc(ds: seq<Delivery>, d: Delivery)
    ensures Events(ds + [d]) == Events(ds) + [d.event]
  {
    assert (ds + [d])[..|ds|] == ds;
  }

  lemma DeliveredSnoc(kept: seq<Delivery>, d: Delivery, id: string)
    ensures Delivered(kept + [d], id) <==> Delivered(kept, id) || (id != "" && id == d.eventId)
  {
    var all := kept + [d];
    if Delivered(kept, id) {
      var k :| 0 <= k < |kept| && kept[k].eventId == id;
      assert all[k].eventId == id;
    }
    if id != "" && id == d.eventId {
      assert all[|kept|].eventId == id;
    }
    if Delivered(all, id) && id != d.eventId {
      var k :| 0 <= k < |all| && all[k].eventId == id;
      assert kept[k].eventId == id;
    }
  }

  ghost predicate MarkersAre(markers: map<string, int>, kept: seq<Delivery>) {
    forall id :: id in markers <==> Delivered(kept, id)
  }

  // One delivery keeps the markers in step with the reference, provided that of its id still lives.
  lemma MarkersFollowReference(cfg: Config, db: Db, kept: seq<Delivery>, before: Service, d: Delivery)
    requires before.db == Replay(cfg, db, Events(kept)) && MarkersAre(before.markers, kept)
    requires d.eventId in before.markers ==> d.at < before.markers[d.eventId]
    ensures Respond(cfg, before, d) == Handled <==> Keep(cfg, db, kept, d) == kept + [d]
    ensures Respond(cfg, before, d) != Handled ==> Keep(cfg, db, kept, d) == kept
    ensures MarkersAre(Receive(cfg, before, d).markers, Keep(cfg, db, kept, d))
  {
    assert d.eventId in before.markers <==> Delivered(kept, d.eventId);
    forall id ensures Delivered(kept + [d], id) <==> Delivered(kept, id) || (id != "" && id == d.eventId) {
      DeliveredSnoc(kept, d, id);
    }
  }

  lemma TablesFollowReference(cfg: Config, db: Db, kept: seq<Delivery>, before: Service, d: Delivery)
    requires before.db == Replay(cfg, db, Events(kept)) && MarkersAre(before.markers, kept)
    requires d.eventId in before.markers ==> d.at < before.markers[d.eventId]
    ensures Receive(cfg, before, d).db == Replay(cfg, db, Events(Keep(cfg, db, kept, d)))
  {
    MarkersFollowReference(cfg, db, kept, before, d);
    ReplaySnoc(cfg, db, Events(kept), d.event);
    EventsSnoc(kept, d);
  }

  /** Replay refinement: for any deliveries with redeliveries, failures and events without an id,
      inside the marker lifetime, the tables are those of applying only the first successful
      delivery of each event id, in order, and the markers are exactly the ids delivered. */
  lemma {:induction false} TablesAreFirstSuccesses(cfg: Config, s: Service, ds: seq<Delivery>)
    requires s.markers == map[] && WithinLifetime(ds)
    ensures ReceiveAll(cfg, s, ds).db == Replay(cfg, s.db, Events(FirstSuccesses(cfg, s.db, ds)))
    ensures MarkersAre(ReceiveAll(cfg, s, ds).markers, FirstSuccesses(cfg, s.db, ds))
    decreases |ds|
  {
    if ds != [] {
      var k := |ds| - 1;
      TablesAreFirstSuccesses(cfg, s, ds[..k]);
      MarkersAreTrue(cfg, s, ds, k);
      var before, d := ReceiveAll(cfg, s, ds[..k]), ds[k];
      var kept := FirstSuccesses(cfg, s.db, ds[..k]);
      if d.eventId in before.markers {
        assert Delivered(kept, d.eventId) && StampedBy(ds, k, d.eventId, before.markers[d.eventId]);
      }
      MarkersFollowReference(cfg, s.db, kept, before, d);
      TablesFollowReference(cfg, s.db, kept, before, d);
    }
  }

  ghost predicate OncePerId(kept: seq<Delivery>) {
    forall i, j :: 0 <= i < j < |kept| && kept[i].eventId != "" ==> kept[i].eventId != kept[j].eventId
  }

  ghost predicate SucceedInTurn(cfg: Config, db: Db, kept: seq<Delivery>) {
    forall i :: 0 <= i < |kept| ==> Succeeds(cfg, Replay(cfg, db, Events(kept[..i])), kept[i])
  }

  lemma SucceedInTurnSnoc(cfg: Config, db: Db, kept: seq<Delivery>, d: Delivery)
    requires SucceedInTurn(cfg, db, kept) && Succeeds(cfg, Replay(cfg, db, Events(kept)), d)
    ensures SucceedInTurn(cfg, db, kept + [d])
  {
    var all := kept + [d];
    forall i | 0 <= i < |all| ensures Succeeds(cfg, Replay(cfg, db, Events(all[..i])), all[i]) {
      if i < |kept| {
        assert all[..i] == kept[..i];
      } else {
        assert all[..i] == kept;
      }
    }
  }

  /** What the reference keeps are first successes indeed: no id twice, and every kept delivery
      succeeds on the tables left by those before it. */
  lemma {:induction false} KeptSucceedOncePerId(cfg: Config, db: Db, ds: seq<Delivery>)
    ensures OncePerId(FirstSuccesses(cfg, db, ds)) && SucceedInTurn(cfg, db, FirstSuccesses(cfg, db, ds))
    decreases |ds|
  {
    if ds != [] {
      KeptSucceedOncePerId(cfg, db, ds[..|ds| - 1]);
      var before, d := FirstSuccesses(cfg, db, ds[..|ds| - 1]), ds[|ds| - 1];
      if !Delivered(before, d.eventId) && Succeeds(cfg, Replay(cfg, db, Events(before)), d) {
        SucceedInTurnSnoc(cfg, db, before, d);
      }
    }
  }

  // ---------------------------------------------------------------- events that are lost

  predicate Resolvable(cfg: Config, s: StripeSub) {
    ResolvePlan(cfg.plans, s.item).Some? && s.metadataTenant.Some? && s.metadataTenant.value in cfg.tenants
  }

  /** A created or updated event that the webhook acknowledges and marks still leaves no row under
      its subscription id exactly when there was none before and its plan or its tenant could not
      be resolved. */
  lemma HandledWithoutRowExactlyWhen(cfg: Config, s: Service, d: Delivery)
    requires Valid(s.db) && (d.event.Created? || d.event.Updated?) && Respond(cfg, s, d) == Handled
    ensures var s' := Receive(cfg, s, d);
      && (BySub(s'.db, d.event.sub.id) == {} <==>
            BySub(s.db, d.event.sub.id) == {} && !Resolvable(cfg, d.event.sub))
      && (BySub(s'.db, d.event.sub.id) == {} ==> s'.db == s.db)
      && (d.eventId != "" ==> d.eventId in s'.markers && s'.markers[d.eventId] == d.at + LIFETIME)
  {
    var sub := d.event.sub;
    SyncWritesTarget(cfg, s.db, sub);
    var target := Target(cfg, s.db, sub);
    if target.Some? {
      assert target.value.0 in BySub(Receive(cfg, s, d).db, sub.id);
    }
  }

  /** The same for invoices: an acknowledged invoice event leaves no invoice exactly when there was none
      before and it names no subscription, or one that is not there (yet). */
  lemma HandledWithoutInvoiceExactlyWhen(cfg: Config, s: Service, d: Delivery)
    requires (d.event.Paid? || d.event.PaymentFailed?) && Respond(cfg, s, d) == Handled
    ensures var s' := Receive(cfg, s, d); var inv := d.event.invoice;
      && (inv.id !in s'.db.invoices <==>
            inv.id !in s.db.invoices && (inv.subscription.None? || BySub(s.db, inv.subscription.value) == {}))
      && (inv.id !in s'.db.invoices ==> s'.db == s.db)
      && (d.eventId != "" ==> d.eventId in s'.markers && s'.markers[d.eventId] == d.at + LIFETIME)
  {}

  /** Such an event is lost: whatever is configured afterwards, while the marker lives every
      redelivery of it is skipped, among any other deliveries. */
  lemma RedeliveriesAreSkipped(cfg: Config, s: Service, d: Delivery, cfg': Config, ds: seq<Delivery>, i: nat)
    requires d.eventId != "" && Respond(cfg, s, d) == Handled && i < |ds|
    requires forall k :: 0 <= k < |ds| && ds[k].eventId == d.eventId ==> ds[k].at < d.at + LIFETIME
    ensures ds[i].eventId == d.eventId ==> ResponseAt(cfg', Receive(cfg, s, d), ds, i) == Skipped
  {
    var after := Receive(cfg, s, d);
    for k := 0 to i
      invariant d.eventId in ReceiveAll(cfg', after, ds[..k]).markers
      invariant ReceiveAll(cfg', after, ds[..k]).markers[d.eventId] == d.at + LIFETIME
    {
      assert ds[..k + 1][..k] == ds[..k];
    }
  }

  /** An invoice delivered before its subscription never arrives: the event is acknowledged, and its
      redelivery after the subscription has been synchronised is skipped. */
  lemma InvoiceBeforeSubscriptionIsLost(cfg: Config, s: Service, d: Delivery, synced: Delivery, again: Delivery)
    requires d.event.Paid? && !d.transient && d.eventId != "" && !Marked(s.markers, d.eventId, d.at)
    requires d.event.invoice.subscription.Some? && BySub(s.db, d.event.invoice.subscription.value) == {}
    requires d.event.invoice.id !in s.db.invoices
    requires again.eventId == d.eventId && again.at < d.at + LIFETIME
    requires (synced.event.Created? || synced.event.Updated?) && synced.eventId != d.eventId
    ensures var s1 := Receive(cfg, s, d); var s2 := Receive(cfg, s1, synced); var s3 := Receive(cfg, s2, again);
      && Respond(cfg, s, d) == Handled && Respond(cfg, s2, again) == Skipped
      && s3 == s2 && d.event.invoice.id !in s3.db.invoices
  {
    SyncWritesTarget(cfg, Receive(cfg, s, d).db, synced.event.sub);
  }

  /** The concrete case: a checkout completes before its plan is entered. The event is acknowledged,
      no row is written, and when Stripe delivers it again an hour later, the plan being there, it
      is skipped and the tenant still has no subscription. Only after seven days it would be handled. */
  lemma CheckoutBeforePlanIsLost(s: Service)
    requires s == Service(Db(map[], map[], 0), map[])
    ensures var sub := StripeSub("sub_1", "cus_1", Some(Item("price_1", "", "month")), "active",
                                 None, None, false, None, None, Some(7));
      var early, late := Config([], {7}), Config([Plan(1, "price_1", "", "")], {7});
      var s1 := Receive(early, s, Delivery("evt_1", Created(sub), 0, false));
      var s2 := Receive(late, s1, Delivery("evt_1", Created(sub), 3600, false));
      && Respond(early, s, Delivery("evt_1", Created(sub), 0, false)) == Handled
      && Resolvable(late, sub)
      && Respond(late, s1, Delivery("evt_1", Created(sub), 3600, false)) == Skipped
      && s2.db == s.db && BySub(s2.db, "sub_1") == {} && ByTenant(s2.db, 7) == {}
      && Respond(late, s1, Delivery("evt_1", Created(sub), 604799, false)) == Skipped
      && Respond(late, s1, Delivery("evt_1", Created(sub), 604800, false)) != Skipped
  {
    var late := Config([Plan(1, "price_1", "", "")], {7});
    assert FirstPlan(late.plans, (p: Plan) => p.priceMonthly == "price_1") == Some(1);
  }

  // ---------------------------------------------------------------- the tables

  class Tables {
    const cfg: Config
    var subs: map<RowPk, Sub>
    var invoices: map<InvoiceId, Invoice>
    var nextPk: RowPk
    var markers: map<string, int>

    constructor (cfg: Config)
      ensures this.cfg == cfg && Valid(View()) && markers == map[] && subs == map[]
    {
      this.cfg := cfg;
      subs, invoices, nextPk, markers := map[], map[], 0, map[];
    }

    function View(): Db
      reads this
    {
      Db(subs, invoices, nextPk)
    }

    // filter(...).first() on a unique column
    method Find(found: set<RowPk>) returns (r: Option<RowPk>)
      requires forall a, b :: a in found && b in found ==> a == b
      ensures r == First(found)
    {
      if found == {} {
        return None;
      }
      var pk :| pk in found;
      return Some(pk);
    }

    // save(), with the unique constraints of the table
    method Save(pk: RowPk, row: Sub) returns (raised: bool)
      requires pk <= nextPk
      modifies this`subs, this`nextPk
      ensures raised <==> Write(old(View()), pk, row).Raised?
      ensures raised ==> View() == old(View())
      ensures !raised ==> View() == Write(old(View()), pk, row).db
    {
      if !Unique(View(), pk, row) {
        return true;
      }
      subs := subs[pk := row];
      if pk == nextPk {
        nextPk := nextPk + 1;
      }
      return false;
    }

    /** _sync_subscription_from_stripe: update the row of this id, else repoint the tenant's row,
        else create one. */
    method SyncSubscription(s: StripeSub) returns (raised: bool)
      requires Valid(View())
      modifies this`subs, this`nextPk
      ensures raised <==> Sync(cfg, old(View()), s).Raised?
      ensures raised ==> View() == old(View())
      ensures !raised ==> View() == Sync(cfg, old(View()), s).db && Valid(View())
      ensures !raised && ResolvePlan(cfg.plans, s.item).Some? && s.metadataTenant.Some? && s.metadataTenant.value in cfg.tenants
        ==> exists pk :: pk in subs && BySub(View(), s.id) == {pk} && Mirrors(subs[pk], s, s.metadataTenant.value, cfg.plans)
    {
      if Sync(cfg, View(), s).Done? {
        SyncKeepsValid(cfg, View(), s);
        if ResolvePlan(cfg.plans, s.item).Some? && s.metadataTenant.Some? && s.metadataTenant.value in cfg.tenants {
          SyncedRowMirrorsStripe(cfg, View(), s);
        }
      }
      var plan := ResolvePlan(cfg.plans, s.item);
      if plan.None? {
        return false;
      }
      if s.metadataTenant.Some? && s.metadataTenant.value !in cfg.tenants {
        return false;
      }
      var existing := Find(BySub(View(), s.id));
      if existing.None? && s.metadataTenant.None? {
        return false;
      }
      if existing.None? {
        var t := s.metadataTenant.value;
        var current := Find(ByTenant(View(), t));
        if current.Some? {
          raised := Save(current.value, Refreshed(t, s, plan.value));
        } else {
          raised := Save(nextPk, Refreshed(t, s, plan.value));
        }
      } else {
        raised := Save(existing.value, Refreshed(s.metadataTenant.GetOr(subs[existing.value].tenant), s, plan.value));
      }
    }

    method SubscriptionDeleted(id: SubId, canceledAt: Option<int>)
      requires Valid(View())
      modifies this`subs
      ensures Done(View()) == Cancel(old(View()), id, canceledAt)
    {
      var existing := Find(BySub(View(), id));
      if existing.Some? {
        subs := subs[existing.value := subs[existing.value].(status := Canceled, canceledAt := canceledAt)];
      }
    }

    method SaveInvoice(inv: StripeInvoice) returns (raised: bool)
      requires Valid(View())
      modifies this`invoices
      ensures raised <==> SyncInvoice(old(View()), inv).Raised?
      ensures raised ==> View() == old(View())
      ensures !raised ==> View() == SyncInvoice(old(View()), inv).db
    {
      if inv.subscription.None? {
        return false;
      }
      var existing := Find(BySub(View(), inv.subscription.value));
      if existing.None? {
        return false;
      }
      if inv.periodStart.None? || inv.periodEnd.None? {
        return true;
      }
      invoices := invoices[inv.id := Invoice(existing.value, inv.amountPaid as real / 100.0,
                                             inv.currency.GetOr("usd"), inv.status.GetOr("unknown"),
                                             inv.pdfUrl.GetOr(""), inv.hostedUrl.GetOr(""),
                                             inv.periodStart.value, inv.periodEnd.value)];
      return false;
    }

    method Dispatch(e: Event) returns (raised: bool)
      requires Valid(View())
      modifies this`subs, this`nextPk, this`invoices
      ensures raised <==> Handle(cfg, old(View()), e).Raised?
      ensures raised ==> View() == old(View())
      ensures !raised ==> View() == Handle(cfg, old(View()), e).db
    {
      raised := false;
      match e
      case Created(s) => raised := SyncSubscription(s);
      case Updated(s) => raised := SyncSubscription(s);
      case Deleted(id, at) => SubscriptionDeleted(id, at);
      case Paid(inv) => raised := SaveInvoice(inv);
      case PaymentFailed(inv) => raised := SaveInvoice(inv);
      case Other =>
    }

    /** stripe_webhook after the signature check: skip marked events, dispatch, and set the marker
        only after the handler has succeeded. */
    method Webhook(d: Delivery) returns (response: Response)
      requires Valid(View())
      modifies this
      ensures response == Respond(cfg, Service(old(View()), old(markers)), d)
      ensures Service(View(), markers) == Receive(cfg, Service(old(View()), old(markers)), d)
    {
      if Marked(markers, d.eventId, d.at) {
        return Skipped;
      }
      if d.event.Other? {
        return Unhandled;
      }
      if d.transient {
        return Failed;
      }
      var raised := Dispatch(d.event);
      if raised {
        return Failed;
      }
      if d.eventId != "" {
        markers := markers[d.eventId := d.at + LIFETIME];
      }
      return Handled;
    }
  }
}
