/** Catalogue changes under lost replies, late deliveries and failed commits, with
    checkout's update split into its read and its Save: checkout can be ahead of
    inventory, never behind it, and what a Save can bring back. */
module CatalogueSafety {
  import opened Market
  import opened Protocol

  // MARK: the invariant

  /** The product is deleted at checkout, unless a Save has inserted it again. */
  predicate Gone(s: State, p: Sid) {
    p in s.sales.products && (s.sales.products[p].deleted || p in s.revived)
  }

  /** What a confirmed change has already done at checkout. */
  predicate Backed(s: State) {
    s.writer.Writing? && s.writer.confirmed ==>
      match s.writer.change
      case Create(sid, _) => sid in s.sales.products
      case Update(sid, _) => sid in s.stock.products && (LiveItem(s.stock, sid) || sid in s.revived)
      case Remove(sid) => Gone(s, sid)
  }

  predicate Ahead(s: State) {
    && (forall p | p in s.stock.products :: p in s.sales.products)
    && (forall p | p in s.stock.products && s.stock.products[p].deleted :: Gone(s, p))
    && (forall h | h in s.saving :: s.saving[h].sid in s.sales.products)
    && (s.writer.Writing? && !s.writer.change.Create? ==> s.writer.change.sid in s.stock.products)
    && Backed(s)
  }

  /** A checkout handler adds, rewrites a live row or deletes: no SID disappears and,
      when nothing falls between its statements, no deleted row comes back. */
  lemma CheckoutOnlyGrows(db: SalesDb, c: Change)
    requires ApplyAtCheckout(db, c).Ok?
    ensures var db' := ApplyAtCheckout(db, c).value;
            && (forall p | p in db.products :: p in db'.products)
            && (forall p | p in db.products && db.products[p].deleted :: db'.products[p].deleted)
            && c.sid in db'.products
            && (c.Remove? ==> db'.products[c.sid].deleted)
            && (c.Update? ==> LiveListing(db, c.sid))
  {
  }

  lemma StoreKeepsAhead(s: State, step: Step)
    requires Ahead(s) && Enabled(s, step) && step.Store?
    ensures Ahead(Next(s, step))
  {
    var s' := Next(s, step);
    assert forall p | p in s'.stock.products ::
        p in s.stock.products && s'.stock.products[p].deleted == s.stock.products[p].deleted;
  }

  lemma DeliverKeepsAhead(s: State, step: Step)
    requires Ahead(s) && Enabled(s, step) && step.DeliverChange?
    ensures Ahead(Next(s, step))
  {
    CheckoutOnlyGrows(s.sales, step.change);
  }

  lemma SaveKeepsAhead(s: State, step: Step)
    requires Ahead(s) && Enabled(s, step) && step.SaveUpdate?
    ensures Ahead(Next(s, step))
  {
    var s' := Next(s, step);
    assert s'.stock == s.stock;
    assert forall p | Gone(s, p) :: Gone(s', p);
  }

  lemma CommitKeepsAhead(s: State)
    requires Ahead(s) && Enabled(s, CommitChange)
    ensures Ahead(Next(s, CommitChange))
  {
  }

  lemma StepKeepsAhead(s: State, step: Step)
    requires Ahead(s) && Enabled(s, step)
    ensures Ahead(Next(s, step))
  {
    if step.Store? {
      StoreKeepsAhead(s, step);
    } else if step.DeliverChange? {
      DeliverKeepsAhead(s, step);
    } else if step.SaveUpdate? {
      SaveKeepsAhead(s, step);
    } else if step.CommitChange? {
      CommitKeepsAhead(s);
    } else {
      var s' := Next(s, step);
      assert s'.stock == s.stock && s'.sales.products == s.sales.products && s'.revived == s.revived;
    }
  }

  lemma {:induction false} RunKeepsAhead(s: State, steps: seq<Step>)
    requires Possible(s, steps) && Ahead(s)
    ensures Ahead(After(s, steps))
    decreases |steps|
  {
    if steps != [] {
      StepKeepsAhead(s, steps[0]);
      RunKeepsAhead(Next(s, steps[0]), steps[1..]);
    }
  }

  // MARK: the promises

  /** In every reachable state, each SID committed at inventory was added at checkout, and
      one deleted at inventory is not live at checkout, unless a Save rewrote its deleted
      row. */
  lemma {:induction false} InventoryImpliesCheckout(s: State, p: Sid)
    requires Reachable(s) && p in s.stock.products
    ensures p in s.sales.products
    ensures s.stock.products[p].deleted ==> !LiveListing(s.sales, p) || p in s.revived
  {
    var start: State, steps: seq<Step> :| Initial(start) && Possible(start, steps) && After(start, steps) == s;
    RunKeepsAhead(start, steps);
  }

  /** The history of revived products holds what its name says. */
  lemma RevivedExactly(s: State, step: Step, p: Sid)
    requires Enabled(s, step)
    ensures p in Next(s, step).revived
            <==> p in s.revived || (step.SaveUpdate? && s.saving[step.handler].sid == p && !LiveListing(s.sales, p))
  {
  }

  lemma DeletionHoldsOnce(s: State, step: Step, p: Sid)
    requires Ahead(s) && Enabled(s, step)
    requires p in s.stock.products && (s.stock.products[p].deleted || p in s.revived)
    ensures var s' := Next(s, step); p in s'.stock.products && (s'.stock.products[p].deleted || p in s'.revived)
  {
    if !step.Store? && !step.CommitChange? {
      assert Next(s, step).stock == s.stock;
    }
  }

  lemma {:induction false} DeletionHolds(s: State, steps: seq<Step>, p: Sid)
    requires Possible(s, steps) && Ahead(s)
    requires p in s.stock.products && (s.stock.products[p].deleted || p in s.revived)
    ensures var t := After(s, steps); p in t.stock.products && (t.stock.products[p].deleted || p in t.revived)
    decreases |steps|
  {
    if steps != [] {
      StepKeepsAhead(s, steps[0]);
      DeletionHoldsOnce(s, steps[0], p);
      DeletionHolds(Next(s, steps[0]), steps[1..], p);
    }
  }

  /** A product deleted at inventory stays deleted in every continuation, although an
      update that read it earlier ends in a Save, which would insert the row again:
      checkout refuses that update first, unless one of its own Saves has brought the
      product back there. */
  lemma {:induction false} DeletedForGood(s: State, steps: seq<Step>, p: Sid)
    requires Reachable(s) && Possible(s, steps)
    requires p in s.stock.products && s.stock.products[p].deleted
    ensures var t := After(s, steps); p in t.stock.products && (t.stock.products[p].deleted || p in t.revived)
  {
    var start: State, before: seq<Step> :| Initial(start) && Possible(start, before) && After(start, before) == s;
    RunKeepsAhead(start, before);
    DeletionHolds(s, steps, p);
  }

  // MARK: exactly when a deleted product is sold

  /** Of checkout's Saves and deletions of `p`, a Save was the last one. */
  predicate SavedLast(s: State, steps: seq<Step>, p: Sid, saved: bool)
    requires Possible(s, steps)
    decreases |steps|
  {
    if steps == [] then saved else SavedLast(Next(s, steps[0]), steps[1..], p, SavedNow(s, steps[0], p, saved))
  }

  predicate SavedNow(s: State, step: Step, p: Sid, saved: bool)
    requires Enabled(s, step)
  {
    if step.SaveUpdate? && s.saving[step.handler].sid == p then true
    else if step.DeliverChange? && step.change == Remove(p) then false
    else saved
  }

  /** Inventory has deleted the product, or knows that checkout has. */
  predicate DeletionKnown(s: State, p: Sid) {
    || (p in s.stock.products && s.stock.products[p].deleted)
    || s.writer == Writing(Remove(p), true)
  }

  /** After a Save the product is sold; without one, a known deletion is in force. */
  predicate SaveDecides(s: State, p: Sid, saved: bool) {
    (saved ==> LiveListing(s.sales, p)) && (!saved && DeletionKnown(s, p) ==> !LiveListing(s.sales, p))
  }

  lemma InventoryStepDecides(s: State, step: Step, p: Sid, saved: bool)
    requires Ahead(s) && SaveDecides(s, p, saved) && Enabled(s, step) && (step.Store? || step.CommitChange?)
    ensures SaveDecides(Next(s, step), p, saved)
  {
    var s' := Next(s, step);
    assert s'.sales == s.sales;
    if step.Store? {
      assert p in s'.stock.products ==> p in s.stock.products && s'.stock.products[p].deleted == s.stock.products[p].deleted;
    }
  }

  lemma CheckoutStepDecides(s: State, step: Step, p: Sid, saved: bool)
    requires Ahead(s) && SaveDecides(s, p, saved) && Enabled(s, step) && (step.DeliverChange? || step.SaveUpdate?)
    ensures SaveDecides(Next(s, step), p, SavedNow(s, step, p, saved))
  {
    assert Next(s, step).stock == s.stock;
  }

  lemma StepDecides(s: State, step: Step, p: Sid, saved: bool)
    requires Ahead(s) && SaveDecides(s, p, saved) && Enabled(s, step)
    ensures SaveDecides(Next(s, step), p, SavedNow(s, step, p, saved))
  {
    if step.Store? || step.CommitChange? {
      InventoryStepDecides(s, step, p, saved);
    } else if step.DeliverChange? || step.SaveUpdate? {
      CheckoutStepDecides(s, step, p, saved);
    } else {
      var s' := Next(s, step);
      assert s'.stock == s.stock && s'.sales.products == s.sales.products;
      assert DeletionKnown(s', p) ==> DeletionKnown(s, p);
    }
  }

  lemma {:induction false} RunDecides(s: State, steps: seq<Step>, p: Sid, saved: bool)
    requires Possible(s, steps) && Ahead(s) && SaveDecides(s, p, saved)
    ensures SaveDecides(After(s, steps), p, SavedLast(s, steps, p, saved))
    decreases |steps|
  {
    if steps != [] {
      StepDecides(s, steps[0], p, saved);
      StepKeepsAhead(s, steps[0]);
      RunDecides(Next(s, steps[0]), steps[1..], p, SavedNow(s, steps[0], p, saved));
    }
  }

  /** After any run, a product deleted at inventory is sold at checkout if and only if, of
      checkout's Saves and deletions of it, a Save was the last one. */
  lemma {:induction false} DeletedIsSoldExactly(s: State, steps: seq<Step>, p: Sid)
    requires Initial(s) && Possible(s, steps)
    requires var t := After(s, steps); p in t.stock.products && t.stock.products[p].deleted
    ensures LiveListing(After(s, steps).sales, p) <==> SavedLast(s, steps, p, false)
  {
    RunDecides(s, steps, p, false);
  }

  // MARK: when a Save brings a product back

  /** Checkout deletes `p` while one of its updates of `p` is between its read and its Save. */
  predicate RemovedDuringUpdate(s: State, step: Step, p: Sid) {
    step.DeliverChange? && step.change == Remove(p) && exists h :: h in s.saving && s.saving[h].sid == p
  }

  predicate NeverRemovedDuringUpdate(s: State, steps: seq<Step>, p: Sid)
    requires Possible(s, steps)
    decreases |steps|
  {
    steps == [] ||
    (!RemovedDuringUpdate(s, steps[0], p) && NeverRemovedDuringUpdate(Next(s, steps[0]), steps[1..], p))
  }

  /** Every update of `p` in progress would rewrite a live row. */
  predicate SavesLive(s: State, p: Sid) {
    forall h | h in s.saving && s.saving[h].sid == p :: LiveListing(s.sales, p)
  }

  lemma StepSavesLive(s: State, step: Step, p: Sid)
    requires SavesLive(s, p) && Enabled(s, step) && !RemovedDuringUpdate(s, step, p)
    ensures SavesLive(Next(s, step), p)
    ensures p in Next(s, step).revived ==> p in s.revived
  {
    var s' := Next(s, step);
    if step.SaveUpdate? {
      assert forall h | h in s'.saving :: h in s.saving && s'.saving[h] == s.saving[h];
    } else if step.DeliverChange? {
      assert s'.saving == s.saving;
      assert LiveListing(s.sales, p) && step.change != Remove(p) ==> LiveListing(s'.sales, p);
    } else if !step.ReadListing? {
      assert s'.saving == s.saving && s'.sales.products == s.sales.products;
    }
  }

  lemma {:induction false} RunSavesLive(s: State, steps: seq<Step>, p: Sid)
    requires SavesLive(s, p) && Possible(s, steps) && NeverRemovedDuringUpdate(s, steps, p)
    ensures p in After(s, steps).revived ==> p in s.revived
    decreases |steps|
  {
    if steps != [] {
      StepSavesLive(s, steps[0], p);
      RunSavesLive(Next(s, steps[0]), steps[1..], p);
    }
  }

  /** A product comes back only when checkout deletes it between the read and the Save of
      one of its updates. In every run without that, a product deleted at inventory is not
      live at checkout, and it stays deleted at both. */
  lemma {:induction false} DeletionIsSafe(start: State, first: seq<Step>, second: seq<Step>, p: Sid)
    requires Initial(start) && Possible(start, first) && Possible(After(start, first), second)
    requires Possible(start, first + second) && NeverRemovedDuringUpdate(start, first + second, p)
    requires var s := After(start, first); p in s.stock.products && s.stock.products[p].deleted
    ensures var t := After(start, first + second);
            && p in t.stock.products && t.stock.products[p].deleted
            && p in t.sales.products && t.sales.products[p].deleted && !SavedLast(start, first + second, p, false)
  {
    RunThenRun(start, first, second);
    RunKeepsAhead(start, first);
    RunSavesLive(start, first + second, p);
    DeletionHolds(After(start, first), second, p);
    RunKeepsAhead(start, first + second);
    DeletedIsSoldExactly(start, first + second, p);
  }

  /** An update is read at checkout, and then inventory gives up on its reply. */
  lemma {:induction false} UpdateAbandoned(s: State, update: Edit)
    requires Initial(s) && LiveItem(s.stock, update.sid) && LiveListing(s.sales, update.sid)
    ensures var steps := [OpenChange(update), ReadListing(update, 0), RollbackChange];
            && Possible(s, steps)
            && After(s, steps) == s.(changes := {update}, saving := map[0 := update])
  {
    var s1 := s.(writer := Writing(update, false), changes := {update});
    var s2 := s1.(saving := map[0 := update]);
    RunOfThree(s, s1, s2, s2.(writer := Idle), OpenChange(update), ReadListing(update, 0), RollbackChange);
  }

  lemma {:induction false} RemovedAtBoth(s: State, p: Sid)
    requires s.writer.Idle? && LiveItem(s.stock, p) && LiveListing(s.sales, p)
    ensures var steps := [OpenChange(Remove(p)), DeliverChange(Remove(p), true), CommitChange];
            && Possible(s, steps)
            && After(s, steps) == s.(stock := ApplyAtInventory(s.stock, Remove(p)).value,
                                     sales := RemoveListing(s.sales, p).value,
                                     changes := s.changes + {Remove(p)})
  {
    var s1 := s.(writer := Writing(Remove(p), false), changes := s.changes + {Remove(p)});
    var s2 := s1.(sales := RemoveListing(s.sales, p).value, writer := Writing(Remove(p), true));
    var s3 := s2.(stock := ApplyAtInventory(s.stock, Remove(p)).value, writer := Idle);
    RunOfThree(s, s1, s2, s3, OpenChange(Remove(p)), DeliverChange(Remove(p), true), CommitChange);
  }

  /** That condition is needed: from every start with a live product there is a run, with
      one lost reply, after which inventory has deleted the product and checkout sells it. */
  lemma {:induction false} SplitUpdateRevives(s: State, p: Sid, req: ProductRequest)
    requires Initial(s) && LiveItem(s.stock, p) && LiveListing(s.sales, p)
    ensures exists t :: Reachable(t) && p in t.stock.products && t.stock.products[p].deleted
                        && LiveListing(t.sales, p)
  {
    var update: Edit := Update(p, req);
    var opening := [OpenChange(update), ReadListing(update, 0), RollbackChange];
    var removal := [OpenChange(Remove(p)), DeliverChange(Remove(p), true), CommitChange];
    UpdateAbandoned(s, update);
    RemovedAtBoth(After(s, opening), p);
    RunThenRun(s, opening, removal);
    SaveRevives(After(s, opening + removal), 0);
    RunThenStep(s, opening + removal, SaveUpdate(0, false));
    assert Reachable(After(s, opening + removal + [SaveUpdate(0, false)]));
  }

  lemma SaveRevives(s: State, h: nat)
    requires h in s.saving
    ensures Enabled(s, SaveUpdate(h, false)) && Next(s, SaveUpdate(h, false)).stock == s.stock
    ensures LiveListing(Next(s, SaveUpdate(h, false)).sales, s.saving[h].sid)
  {
  }

  lemma {:induction false} RunOfThree(s: State, s1: State, s2: State, s3: State, a: Step, b: Step, c: Step)
    requires Enabled(s, a) && Next(s, a) == s1
    requires Enabled(s1, b) && Next(s1, b) == s2
    requires Enabled(s2, c) && Next(s2, c) == s3
    ensures Possible(s, [a, b, c]) && After(s, [a, b, c]) == s3
  {
    RunThenStep(s, [], a);
    RunThenStep(s, [a], b);
    RunThenStep(s, [a, b], c);
    assert [] + [a] == [a] && [a] + [b] == [a, b] && [a, b] + [c] == [a, b, c];
  }
}
