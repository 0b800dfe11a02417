/** Undoing a block (IneryBlockUndoExecutor::Execute in blockundo.cpp): the logs of its transactions,
    applied backwards, give back every cache's view from before the block. */
module Undo {
  import opened Options
  import opened Caches
  import opened SimpleCaches

  /** What one cache shows: a table of keys or a single value. */
  datatype AnyView = TableView(table: View) | ValueView(value: Option<Value>)

  /** The views of the caches, by prefix. */
  type Views = map<nat, AnyView>

  ghost predicate ViewLive(view: AnyView) {
    match view
    case TableView(m) => AllLive(m)
    case ValueView(v) => ValueLive(v)
  }

  ghost predicate ViewsLive(views: Views) { forall p :: p in views ==> ViewLive(views[p]) }

  // ---------------------------------------------------------------- what a transaction does and logs

  /** SetData, with the value it found, or EraseData, on the table or the single value of prefix p. */
  datatype Operation =
    | Set(p: nat, key: Key, value: Value, before: Value)
    | Erase(p: nat, key: Key)
    | OnValue(p: nat, op: ValueOp)

  /** What the operation does to the view of its prefix and to the prefix's log. */
  ghost predicate Does(view: AnyView, log: seq<OpLog>, op: Operation, view': AnyView, log': seq<OpLog>) {
    match op
    case Set(_, key, value, before) =>
      && view.TableView? && key != EMPTY_KEY && Find(view.table, key) == Live(before)
      && view' == TableView(SetIn(view.table, key, value)) && log' == log + [OpLog(key, before)]
    case Erase(_, key) =>
      && view.TableView? && key != EMPTY_KEY && view' == TableView(view.table - {key})
      && log' == if Find(view.table, key).Some? then log + [OpLog(key, view.table[key])] else log
    case OnValue(_, vop) =>
      view.ValueView? && view'.ValueView? && ValueStep(view.value, log, vop, view'.value, log')
  }

  /** One operation; the other prefixes do not notice. */
  ghost predicate LoggedStep(views: Views, logs: LogMap, op: Operation, views': Views, logs': LogMap) {
    && op.p in views && op.p in views' && views' == views[op.p := views'[op.p]]
    && Does(views[op.p], LogsOf(logs, op.p), op, views'[op.p], LogsOf(logs', op.p))
    && logs'.Keys <= logs.Keys + {op.p} && forall q :: q != op.p ==> LogsOf(logs', q) == LogsOf(logs, q)
  }

  /** The states of a transaction: it starts with an empty log. */
  ghost predicate IsTransaction(ops: seq<Operation>, views: seq<Views>, logs: seq<LogMap>) {
    && |views| == |logs| == |ops| + 1 && logs[0] == map[] && ViewsLive(views[0])
    && forall i :: 0 <= i < |ops| ==> LoggedStep(views[i], logs[i], ops[i], views[i+1], logs[i+1])
  }

  /** Undoing a list of operations on one cache. */
  ghost function ViewUndone(view: AnyView, logs: seq<OpLog>): AnyView {
    match view
    case TableView(m) => TableView(Undone(m, logs))
    case ValueView(v) => ValueView(ValueUndone(v, logs))
  }

  /** Undoing one transaction: every prefix by itself. */
  ghost function TxUndone(views: Views, logs: LogMap): Views {
    map p | p in views :: ViewUndone(views[p], LogsOf(logs, p))
  }

  /** Undoing a block, the last transaction first. */
  ghost function BlockUndone(views: Views, txs: seq<LogMap>): Views
    decreases |txs|
  {
    if txs == [] then views
    else
      var n := |txs| - 1;
      BlockUndone(TxUndone(views, txs[n]), txs[..n])
  }

  // ---------------------------------------------------------------- undo restores

  lemma UndoneLast(view: View, logs: seq<OpLog>, log: OpLog)
    ensures Undone(view, logs + [log]) == Undone(SetIn(view, log.key, log.oldValue), logs)
  {
    assert (logs + [log])[..|logs|] == logs;
  }

  /** Putting back what was found before a write undoes it. */
  lemma SetBack(view: View, key: Key, value: Value, before: Value)
    requires AllLive(view) && Find(view, key) == Live(before)
    ensures SetIn(SetIn(view, key, value), key, before) == view
  {
  }

  /** One more logged operation makes no difference to what undoing gives. */
  lemma OperationIsUndone(view: AnyView, log: seq<OpLog>, op: Operation, view': AnyView, log': seq<OpLog>)
    requires ViewLive(view) && Does(view, log, op, view', log')
    ensures ViewLive(view') && ViewUndone(view', log') == ViewUndone(view, log)
  {
    hide Undone;
    match op
    case Set(_, key, value, before) =>
      UndoneLast(view'.table, log, OpLog(key, before));
      SetBack(view.table, key, value, before);
    case Erase(_, key) =>
      if Find(view.table, key).Some? {
        UndoneLast(view'.table, log, OpLog(key, view.table[key]));
        SetBack(view.table, key, NO_VALUE, view.table[key]);
      } else {
        assert view.table - {key} == view.table;
      }
    case OnValue(_, vop) =>
      ValueStepIsUndone(view.value, log, vop, view'.value, log');
  }

  lemma StepIsUndone(views: Views, logs: LogMap, op: Operation, views': Views, logs': LogMap)
    requires ViewsLive(views) && LoggedStep(views, logs, op, views', logs')
    ensures ViewsLive(views') && TxUndone(views', logs') == TxUndone(views, logs)
  {
    hide ViewUndone, Does, ViewLive;
    OperationIsUndone(views[op.p], LogsOf(logs, op.p), op, views'[op.p], LogsOf(logs', op.p));
  }

  lemma {:induction false} TransactionIsUndone(ops: seq<Operation>, views: seq<Views>, logs: seq<LogMap>, i: nat)
    requires IsTransaction(ops, views, logs) && i <= |ops|
    ensures ViewsLive(views[i]) && TxUndone(views[i], logs[i]) == views[0]
  {
    if i == 0 {
      assert forall p :: LogsOf(logs[0], p) == [];
      NothingUndone(views[0]);
    } else {
      TransactionIsUndone(ops, views, logs, i - 1);
      StepIsUndone(views[i-1], logs[i-1], ops[i-1], views[i], logs[i]);
    }
  }

  lemma NothingUndone(views: Views)
    ensures TxUndone(views, map[]) == views
  {
  }

  /** A transaction leads from one group of views to another and leaves this log. */
  ghost predicate Leads(before: Views, log: LogMap, after: Views) {
    exists ops, views, logs :: IsTransaction(ops, views, logs) && views[0] == before &&
      views[|ops|] == after && logs[|ops|] == log
  }

  /** Executing the undo of a whole block gives back exactly the views from before the block. */
  lemma {:induction false} BlockIsUndone(states: seq<Views>, txs: seq<LogMap>)
    requires |states| == |txs| + 1 && forall i :: 0 <= i < |txs| ==> Leads(states[i], txs[i], states[i+1])
    ensures BlockUndone(states[|txs|], txs) == states[0]
  {
    if txs != [] {
      var n := |txs| - 1;
      assert Leads(states[n], txs[n], states[n+1]);
      var ops, views, logs :| IsTransaction(ops, views, logs) && views[0] == states[n] &&
        views[|ops|] == states[n+1] && logs[|ops|] == txs[n];
      TransactionIsUndone(ops, views, logs, |ops|);
      assert forall i :: 0 <= i < n ==> Leads(states[..n+1][i], txs[..n][i], states[..n+1][i+1]);
      BlockIsUndone(states[..n+1], txs[..n]);
    }
  }

  /** The logs of tables, unlike those of single values, name a key in every entry. */
  ghost predicate TableLogs(views: Views, logs: LogMap) {
    forall p, k :: p in views && views[p].TableView? && 0 <= k < |LogsOf(logs, p)| ==> LogsOf(logs, p)[k].key != EMPTY_KEY
  }

  lemma {:induction false} TransactionLogsKeys(ops: seq<Operation>, views: seq<Views>, logs: seq<LogMap>, i: nat)
    requires IsTransaction(ops, views, logs) && i <= |ops|
    ensures TableLogs(views[i], logs[i]) && SameKinds(views[0], views[i]) && logs[i].Keys <= views[0].Keys
  {
    if i == 0 {
      assert forall p :: LogsOf(logs[0], p) == [];
    } else {
      TransactionLogsKeys(ops, views, logs, i - 1);
      StepLogsKeys(views[i-1], logs[i-1], ops[i-1], views[i], logs[i]);
    }
  }

  /** The same prefixes, each with the same kind of view. */
  ghost predicate SameKinds(views: Views, views': Views) {
    views.Keys == views'.Keys && forall p :: p in views ==> (views[p].TableView? <==> views'[p].TableView?)
  }

  lemma StepLogsKeys(views: Views, logs: LogMap, op: Operation, views': Views, logs': LogMap)
    requires TableLogs(views, logs) && LoggedStep(views, logs, op, views', logs')
    ensures TableLogs(views', logs') && SameKinds(views, views') && logs'.Keys <= logs.Keys + {op.p} && op.p in views
  {
    hide LogsOf, SetIn, Find, Live;
    forall p, k | p in views' && views'[p].TableView? && 0 <= k < |LogsOf(logs', p)|
      ensures LogsOf(logs', p)[k].key != EMPTY_KEY
    {
      if p == op.p { DoesKeys(views[p], LogsOf(logs, p), op, views'[p], LogsOf(logs', p)); }
    }
  }

  lemma DoesKeys(view: AnyView, log: seq<OpLog>, op: Operation, view': AnyView, log': seq<OpLog>)
    requires Does(view, log, op, view', log')
    ensures view.TableView? <==> view'.TableView?
    ensures view.TableView? && (forall k :: 0 <= k < |log| ==> log[k].key != EMPTY_KEY) ==>
              forall k :: 0 <= k < |log'| ==> log'[k].key != EMPTY_KEY
  {
  }

  // ---------------------------------------------------------------- the registered caches

  /** The entries of the undo function map. */
  datatype Registered = Table(cache: Cache) | Single(single: SimpleCache)

  /** Everything that a cache's view depends on. */
  ghost function Footprint(r: Registered): set<object> {
    match r
    case Table(c) => {c, c.disk} + c.Chain
    case Single(c) => {c, c.disk} + c.Chain
  }

  /** The objects that operations on the cache change. */
  ghost function Owned(r: Registered): set<object> {
    match r
    case Table(c) => c.Chain
    case Single(c) => c.Chain
  }

  ghost predicate RLinked(r: Registered) {
    match r
    case Table(c) => c.Linked()
    case Single(c) => c.Linked()
  }

  ghost predicate RValid(r: Registered)
    reads Footprint(r)
  {
    match r
    case Table(c) => c.Valid()
    case Single(c) => c.Valid()
  }

  ghost function ViewOf(r: Registered): AnyView
    requires RLinked(r)
    reads Footprint(r)
  {
    match r
    case Table(c) => TableView(c.View())
    case Single(c) => ValueView(c.View())
  }

  type Registry = map<nat, Registered>

  ghost function Everything(caches: Registry): set<object> {
    set r, o | r in caches.Values && o in Footprint(r) :: o
  }

  /** The registered caches, one for every prefix, stand beside each other. */
  ghost predicate Separate(caches: Registry) {
    forall p, q :: p in caches && q in caches && p != q ==> Owned(caches[p]) !! Footprint(caches[q])
  }

  ghost predicate AllValid(caches: Registry)
    reads Everything(caches)
  {
    forall p :: p in caches ==> RValid(caches[p])
  }

  ghost predicate AllLinked(caches: Registry) {
    forall p :: p in caches ==> RLinked(caches[p])
  }

  ghost function ViewsOf(caches: Registry): Views
    requires AllLinked(caches)
    reads Everything(caches)
  {
    map p | p in caches :: ViewOf(caches[p])
  }

  lemma ValidLinked(caches: Registry)
    requires AllValid(caches)
    ensures AllLinked(caches)
  {
  }

  // ---------------------------------------------------------------- operations on them

  /** The log that a cache writes. */
  ghost predicate LogsTo(r: Registered, p: nat, log: OpLogMap) {
    match r
    case Table(c) => c.opLogMap == log && c.prefix == p
    case Single(c) => c.opLogMap == log && c.prefix == p
  }

  lemma LoggedOne(logs: LogMap, p: nat, log: OpLog)
    ensures LogsOf(Logged(logs, p, log), p) == LogsOf(logs, p) + [log]
    ensures Logged(logs, p, log).Keys <= logs.Keys + {p} && forall q :: q != p ==> LogsOf(Logged(logs, p, log), q) == LogsOf(logs, q)
  {
  }

  /** What changes when only the cache of prefix p and the log do. */
  lemma StepAtPrefix(views: Views, logs: LogMap, op: Operation, view': AnyView, logs': LogMap)
    requires op.p in views && Does(views[op.p], LogsOf(logs, op.p), op, view', LogsOf(logs', op.p))
    requires logs'.Keys <= logs.Keys + {op.p} && forall q :: q != op.p ==> LogsOf(logs', q) == LogsOf(logs, q)
    ensures LoggedStep(views, logs, op, views[op.p := view'], logs')
  {
    hide Does, LogsOf;
    assert views[op.p := view'] == views[op.p := views[op.p := view'][op.p]];
  }

  twostate lemma Unaffected(r: Registered)
    requires old(RValid(r)) && RLinked(r) && forall o :: o in Footprint(r) ==> unchanged(o)
    ensures RValid(r) && ViewOf(r) == old(ViewOf(r))
  {
  }

  /** SetData on the registered table of prefix p. */
  method SetRegistered(caches: Registry, log: OpLogMap, p: nat, key: Key, value: Value) returns (ghost op: Operation)
    requires AllValid(caches) && Separate(caches) && p in caches && caches[p].Table? && LogsTo(caches[p], p, log)
    requires key != EMPTY_KEY
    modifies Owned(caches[p]), log
    ensures AllValid(caches) && op.p == p
    ensures AllLinked(caches) && LoggedStep(old(ViewsOf(caches)), old(log.logs), op, ViewsOf(caches), log.logs)
  {
    hide Cache.Valid, SimpleCache.Valid, Cache.View, SimpleCache.View, SetIn, Find, Live, Logged, LogsOf, LoggedStep;
    ValidLinked(caches);
    ghost var views, logs := ViewsOf(caches), log.logs;
    var ok, before, _ := caches[p].cache.SetData(key, value);
    op := Set(p, key, value, before);
    forall q | q in caches && q != p ensures RValid(caches[q]) && ViewOf(caches[q]) == old(ViewOf(caches[q])) {
      Unaffected(caches[q]);
    }
    OthersStay(caches, p, views);
    LiveIs(before);
    LoggedOne(logs, p, OpLog(key, before));
    StepAtPrefix(views, logs, op, ViewOf(caches[p]), log.logs);
  }

  /** EraseData on it. */
  method EraseRegistered(caches: Registry, log: OpLogMap, p: nat, key: Key) returns (ghost op: Operation)
    requires AllValid(caches) && Separate(caches) && p in caches && caches[p].Table? && LogsTo(caches[p], p, log)
    requires key != EMPTY_KEY
    modifies Owned(caches[p]), log
    ensures AllValid(caches) && op.p == p
    ensures AllLinked(caches) && LoggedStep(old(ViewsOf(caches)), old(log.logs), op, ViewsOf(caches), log.logs)
  {
    hide Cache.Valid, SimpleCache.Valid, Cache.View, SimpleCache.View, SetIn, Find, Live, Logged, LogsOf, LoggedStep;
    ValidLinked(caches);
    ghost var views, logs := ViewsOf(caches), log.logs;
    var ok, _ := caches[p].cache.EraseData(key);
    op := Erase(p, key);
    forall q | q in caches && q != p ensures RValid(caches[q]) && ViewOf(caches[q]) == old(ViewOf(caches[q])) {
      Unaffected(caches[q]);
    }
    OthersStay(caches, p, views);
    EraseLoggedOne(logs, p, views[p].table, key);
    StepAtPrefix(views, logs, op, ViewOf(caches[p]), log.logs);
  }

  /** SetData on the registered single value of prefix p. */
  method SetSingle(caches: Registry, log: OpLogMap, p: nat, value: Value) returns (ghost op: Operation)
    requires AllValid(caches) && Separate(caches) && p in caches && caches[p].Single? && LogsTo(caches[p], p, log)
    modifies Owned(caches[p]), log
    ensures AllValid(caches) && op.p == p
    ensures AllLinked(caches) && LoggedStep(old(ViewsOf(caches)), old(log.logs), op, ViewsOf(caches), log.logs)
  {
    hide Cache.Valid, SimpleCache.Valid, Cache.View, SimpleCache.View, SetIn, Find, Live, Logged, LogsOf, LoggedStep;
    ValidLinked(caches);
    ghost var views, logs := ViewsOf(caches), log.logs;
    var before := caches[p].single.SetData(value);
    op := OnValue(p, SetValue(value, before));
    forall q | q in caches && q != p ensures RValid(caches[q]) && ViewOf(caches[q]) == old(ViewOf(caches[q])) {
      Unaffected(caches[q]);
    }
    OthersStay(caches, p, views);
    LoggedOne(logs, p, OpLog(EMPTY_KEY, before));
    StepAtPrefix(views, logs, op, ViewOf(caches[p]), log.logs);
  }

  /** EraseData on it. */
  method EraseSingle(caches: Registry, log: OpLogMap, p: nat) returns (ghost op: Operation)
    requires AllValid(caches) && Separate(caches) && p in caches && caches[p].Single? && LogsTo(caches[p], p, log)
    modifies Owned(caches[p]), log
    ensures AllValid(caches) && op.p == p
    ensures AllLinked(caches) && LoggedStep(old(ViewsOf(caches)), old(log.logs), op, ViewsOf(caches), log.logs)
  {
    hide Cache.Valid, SimpleCache.Valid, Cache.View, SimpleCache.View, SetIn, Find, Live, Logged, LogsOf, LoggedStep;
    ValidLinked(caches);
    ghost var views, logs := ViewsOf(caches), log.logs;
    caches[p].single.EraseData();
    op := OnValue(p, EraseValue);
    forall q | q in caches && q != p ensures RValid(caches[q]) && ViewOf(caches[q]) == old(ViewOf(caches[q])) {
      Unaffected(caches[q]);
    }
    OthersStay(caches, p, views);
    ValueEraseLoggedOne(logs, p, views[p].value);
    StepAtPrefix(views, logs, op, ViewOf(caches[p]), log.logs);
  }

  lemma EraseLoggedOne(logs: LogMap, p: nat, view: View, key: Key)
    ensures LogsOf(EraseLogged(logs, p, view, key), p) ==
            if Find(view, key).Some? then LogsOf(logs, p) + [OpLog(key, view[key])] else LogsOf(logs, p)
    ensures EraseLogged(logs, p, view, key).Keys <= logs.Keys + {p} && forall q :: q != p ==> LogsOf(EraseLogged(logs, p, view, key), q) == LogsOf(logs, q)
  {
  }

  lemma ValueEraseLoggedOne(logs: LogMap, p: nat, view: Option<Value>)
    ensures LogsOf(ValueEraseLogged(logs, p, view), p) ==
            if view.Some? then LogsOf(logs, p) + [OpLog(EMPTY_KEY, view.value)] else LogsOf(logs, p)
    ensures ValueEraseLogged(logs, p, view).Keys <= logs.Keys + {p} && forall q :: q != p ==> LogsOf(ValueEraseLogged(logs, p, view), q) == LogsOf(logs, q)
  {
  }

  lemma LiveIs(v: Value)
    ensures Live(v) == if IsEmpty(v) then None else Some(v)
  {
  }

  lemma OthersStay(caches: Registry, p: nat, views: Views)
    requires AllLinked(caches) && p in caches && views.Keys == caches.Keys
    requires forall q :: q in caches && q != p ==> ViewOf(caches[q]) == views[q]
    ensures ViewsOf(caches) == views[p := ViewOf(caches[p])]
  {
  }

  // ---------------------------------------------------------------- the executor

  /** The cache that undoing writes to. */
  ghost function Target(r: Registered): object {
    match r
    case Table(c) => c
    case Single(c) => c
  }

  ghost function Targets(caches: Registry): set<object> {
    set p | p in caches :: Target(caches[p])
  }

  /** One registered function: no other prefix notices. */
  method UndoPrefix(caches: Registry, p: nat, logs: seq<OpLog>)
    requires AllValid(caches) && Separate(caches) && p in caches && AllLinked(caches)
    requires caches[p].Table? ==> forall k :: 0 <= k < |logs| ==> logs[k].key != EMPTY_KEY
    modifies Target(caches[p])
    ensures AllValid(caches)
    ensures ViewsOf(caches) == old(ViewsOf(caches))[p := ViewUndone(old(ViewOf(caches[p])), logs)]
  {
    hide Cache.Valid, SimpleCache.Valid, Cache.View, SimpleCache.View, Undone, ValueUndone;
    ghost var views := ViewsOf(caches);
    TargetOwned(caches[p]);
    match caches[p] {
      case Table(c) => c.UndoDataList(logs);
      case Single(c) => c.UndoDataList(logs);
    }
    forall q | q in caches && q != p ensures RValid(caches[q]) && ViewOf(caches[q]) == old(ViewOf(caches[q])) {
      Unaffected(caches[q]);
    }
    OthersStay(caches, p, views);
  }

  lemma TargetOwned(r: Registered)
    requires RLinked(r)
    ensures Target(r) in Owned(r)
  {
  }

  /** The views when the prefixes in `done` are undone. */
  ghost function PartlyUndone(views: Views, logs: LogMap, done: set<nat>): Views {
    map p | p in views :: if p in logs && p in done then ViewUndone(views[p], logs[p]) else views[p]
  }

  lemma PartlyUndoneStep(views: Views, logs: LogMap, done: set<nat>, p: nat)
    requires p in views && p in logs && p !in done
    ensures p in PartlyUndone(views, logs, done) && PartlyUndone(views, logs, done)[p] == views[p]
    ensures PartlyUndone(views, logs, done)[p := ViewUndone(views[p], logs[p])] == PartlyUndone(views, logs, done + {p})
  {
  }

  lemma PartlyUndoneEnds(views: Views, logs: LogMap)
    ensures PartlyUndone(views, logs, {}) == views && PartlyUndone(views, logs, logs.Keys) == TxUndone(views, logs)
  {
    assert forall v: AnyView :: ViewUndone(v, []) == v;
  }

  /** What the logs of a registry's caches satisfy: the tables' entries name keys. */
  ghost predicate KeysOK(caches: Registry, logs: LogMap) {
    forall p, k :: p in logs && p in caches && caches[p].Table? && 0 <= k < |logs[p]| ==> logs[p][k].key != EMPTY_KEY
  }

  /** Undo one transaction, its prefixes in any order. */
  method UndoTransaction(caches: Registry, logs: LogMap) returns (ok: bool)
    requires AllValid(caches) && Separate(caches) && KeysOK(caches, logs)
    modifies Targets(caches)
    ensures AllValid(caches) && AllLinked(caches) && (ok <==> logs.Keys <= caches.Keys)
    ensures ok ==> ViewsOf(caches) == TxUndone(old(ViewsOf(caches)), logs)
  {
    hide ViewUndone, Separate, RValid, RLinked, AllValid, AllLinked, PartlyUndone, TxUndone, ViewOf;
    ValidLinked(caches);
    ghost var was := ViewsOf(caches);
    PartlyUndoneEnds(was, logs);
    var prefixes := logs.Keys;
    assert logs.Keys - prefixes == {};
    while prefixes != {}
      invariant prefixes <= logs.Keys && AllValid(caches) && AllLinked(caches) && logs.Keys - prefixes <= caches.Keys
      invariant ViewsOf(caches) == PartlyUndone(was, logs, logs.Keys - prefixes)
      modifies Targets(caches)
    {
      var p :| p in prefixes;
      if p !in caches {
        return false;
      }
      PartlyUndoneStep(was, logs, logs.Keys - prefixes, p);
      ViewAt(caches, p);
      UndoPrefix(caches, p, logs[p]);
      ValidLinked(caches);
      assert logs.Keys - (prefixes - {p}) == logs.Keys - prefixes + {p};
      prefixes := prefixes - {p};
    }
    assert logs.Keys - prefixes == logs.Keys;
    ok := true;
  }

  lemma ViewAt(caches: Registry, p: nat)
    requires AllLinked(caches) && p in caches
    ensures RLinked(caches[p]) && ViewsOf(caches)[p] == ViewOf(caches[p])
  {
  }

  /** Undo a block; false if some log belongs to no registered cache. */
  method Execute(caches: Registry, txs: seq<LogMap>) returns (ok: bool)
    requires AllValid(caches) && Separate(caches) && forall i :: 0 <= i < |txs| ==> KeysOK(caches, txs[i])
    modifies Targets(caches)
    ensures AllValid(caches) && AllLinked(caches) && (ok <==> forall i :: 0 <= i < |txs| ==> txs[i].Keys <= caches.Keys)
    ensures ok ==> ViewsOf(caches) == BlockUndone(old(ViewsOf(caches)), txs)
  {
    hide Separate, RValid, RLinked, AllValid, AllLinked, TxUndone, ViewsOf;
    ValidLinked(caches);
    var n := |txs|;
    assert txs[..n] == txs;
    while n > 0
      invariant n <= |txs| && AllValid(caches) && AllLinked(caches)
      invariant forall i :: n <= i < |txs| ==> txs[i].Keys <= caches.Keys
      invariant BlockUndone(ViewsOf(caches), txs[..n]) == BlockUndone(old(ViewsOf(caches)), txs)
      modifies Targets(caches)
    {
      n := n - 1;
      assert txs[..n+1][..n] == txs[..n];
      ok := UndoTransaction(caches, txs[n]);
      if !ok {
        return;
      }
    }
    ok := true;
  }

  /** The kinds of the views of a block, and the keys of its logs. */
  lemma {:induction false} BlockLogsKeys(states: seq<Views>, txs: seq<LogMap>, i: nat)
    requires |states| == |txs| + 1 && i <= |txs| && forall j :: 0 <= j < |txs| ==> Leads(states[j], txs[j], states[j+1])
    ensures SameKinds(states[0], states[i])
    ensures forall j :: 0 <= j < i ==> TableLogs(states[0], txs[j]) && txs[j].Keys <= states[0].Keys
  {
    if i > 0 {
      BlockLogsKeys(states, txs, i - 1);
      assert Leads(states[i-1], txs[i-1], states[i]);
      var ops, views, logs :| IsTransaction(ops, views, logs) && views[0] == states[i-1] &&
        views[|ops|] == states[i] && logs[|ops|] == txs[i-1];
      TransactionLogsKeys(ops, views, logs, |ops|);
    }
  }

  /** Undo restores: on any registered caches that show what the block led to, undoing the block succeeds
      and gives back what the caches showed before it. `states` are the views between the transactions. */
  method UndoBlock(caches: Registry, txs: seq<LogMap>, ghost states: seq<Views>)
    requires AllValid(caches) && Separate(caches) && AllLinked(caches)
    requires |states| == |txs| + 1 && forall i :: 0 <= i < |txs| ==> Leads(states[i], txs[i], states[i+1])
    requires ViewsOf(caches) == states[|txs|]
    modifies Targets(caches)
    ensures AllValid(caches) && AllLinked(caches) && ViewsOf(caches) == states[0]
  {
    hide Separate, AllValid, Leads, BlockUndone, TxUndone;
    BlockLogsKeys(states, txs, |txs|);
    forall i | 0 <= i < |txs| ensures KeysOK(caches, txs[i]) && txs[i].Keys <= caches.Keys {
      RegistryKeys(caches, states[0], states[|txs|], txs[i]);
    }
    BlockIsUndone(states, txs);
    var ok := Execute(caches, txs);
  }

  lemma RegistryKeys(caches: Registry, before: Views, views: Views, logs: LogMap)
    requires AllLinked(caches) && ViewsOf(caches) == views && SameKinds(before, views)
    requires TableLogs(before, logs) && logs.Keys <= before.Keys
    ensures KeysOK(caches, logs) && logs.Keys <= caches.Keys
  {
    hide RLinked;
    forall p, k | p in logs && p in caches && caches[p].Table? && 0 <= k < |logs[p]| ensures logs[p][k].key != EMPTY_KEY {
      assert views[p] == ViewOf(caches[p]) && before[p].TableView? && LogsOf(logs, p) == logs[p];
    }
  }
}
