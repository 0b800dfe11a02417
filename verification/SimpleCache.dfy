/** The cache of a single value (InerySimpleKVCache in dbaccess.h), layered like the composite one. */
module SimpleCaches {
  import opened Options
  import opened Caches

  /** The record of one prefix in the database. */
  class Slot {
    var value: Option<Value>

    ghost predicate Valid()
      reads this
    {
      value.Some? ==> !IsEmpty(value.value)
    }

    constructor ()
      ensures value == None
    {
      value := None;
    }

    /** CDBAccess::WriteBatch for one value. */
    method Write(v: Value)
      modifies this
      ensures value == Live(v)
    {
      value := if IsEmpty(v) then None else Some(v);
    }
  }

  function Live(v: Value): Option<Value> { if IsEmpty(v) then None else Some(v) }

  /** What a cached value, if there is one, shows over the value below. */
  function Shown(below: Option<Value>, data: Option<Value>): Option<Value> {
    if data.Some? then Live(data.value) else below
  }

  /** Undoing logged operations on the value, the last one first: only the first one matters. */
  function ValueUndone(view: Option<Value>, logs: seq<OpLog>): Option<Value> {
    if logs == [] then view else Live(logs[0].oldValue)
  }

  /** EraseData logs what it erases. */
  function ValueEraseLogged(logs: LogMap, prefix: nat, view: Option<Value>): LogMap {
    if view.Some? then Logged(logs, prefix, OpLog(EMPTY_KEY, view.value)) else logs
  }

  class SimpleCache {
    const prefix: nat
    const base: SimpleCache?
    const db: Slot?
    const opLogMap: OpLogMap?
    var data: Option<Value>            // ptrData

    ghost const Chain: set<SimpleCache>
    ghost const disk: Slot

    ghost predicate Linked()
      decreases Chain
    {
      && this in Chain && (base == null <==> db != null)
      && (base == null ==> disk == db && Chain == {this})
      && (base != null ==>
            this !in base.Chain && Chain == {this} + base.Chain && disk == base.disk && base.Linked())
    }

    ghost predicate Valid()
      reads this, Chain, disk
    {
      Linked() && disk.Valid()
    }

    ghost function Below(): Option<Value>
      requires Linked()
      reads Chain, disk
      decreases Chain, 0
    {
      if base != null then base.View() else disk.value
    }

    /** The value that readers see; an empty value is no value. */
    ghost function View(): Option<Value>
      requires Linked()
      reads this, Chain, disk
      decreases Chain, 1
    {
      Shown(Below(), data)
    }

    constructor OverSlot(slot: Slot, prefix: nat, log: OpLogMap?)
      requires slot.Valid()
      ensures Valid() && base == null && disk == slot && Chain == {this} && opLogMap == log && this.prefix == prefix
      ensures data == None && View() == slot.value
    {
      this.prefix, this.base, this.db, this.opLogMap := prefix, null, slot, log;
      data := None;
      Chain, disk := {this}, slot;
    }

    constructor OverCache(below: SimpleCache, prefix: nat, log: OpLogMap?)
      requires below.Valid()
      ensures Valid() && base == below && Chain == {this} + below.Chain && opLogMap == log && this.prefix == prefix
      ensures data == None && View() == below.View()
    {
      this.prefix, this.base, this.db, this.opLogMap := prefix, below, null, log;
      data := None;
      Chain, disk := {this} + below.Chain, below.disk;
    }

    lemma {:induction false} ChainLinked(c: SimpleCache)
      requires Linked() && c in Chain
      ensures c.Linked() && c.Chain <= Chain && c.disk == disk
      ensures base != null && c != this ==> c in base.Chain
      decreases Chain
    {
      if base != null && c != this { base.ChainLinked(c); }
    }

    lemma ChainsLinked()
      requires Linked()
      ensures forall c :: c in Chain ==> c.Linked() && c.Chain <= Chain
    {
      forall c | c in Chain ensures c.Linked() && c.Chain <= Chain { ChainLinked(c); }
    }

    /** Changing this cache's own value leaves the caches below alone. */
    twostate lemma OnlyMineChanged()
      requires old(Valid()) && (forall c :: c in Chain && c != this ==> unchanged(c)) && unchanged(disk)
      ensures Valid() && Below() == old(Below())
      ensures forall c :: c in Chain ==> c.Linked()
      ensures forall c :: c in Chain && c != this ==> c.View() == old(c.View())
    {
      forall c | c in Chain
        ensures c.Linked() && c.Chain <= Chain && (c != this ==> this !in c.Chain) && c.disk == disk
      {
        ChainLinked(c);
        if c != this { base.ChainLinked(c); }
      }
      if base != null { assert base.Linked() && base in base.Chain; }
    }

    /** GetDataPtr: read through, keeping copies. No view in the chain changes. */
    method GetDataPtr() returns (r: Option<Value>)
      requires Valid()
      modifies Chain
      ensures Valid() && forall c :: c in Chain ==> c.Linked() && c.View() == old(c.View())
      ensures r == data && Below() == old(Below()) && disk.value == old(disk.value)
      ensures View() == if data.Some? then Live(data.value) else None
      decreases Chain
    {
      if data.Some? {
        forall c | c in Chain ensures c.Linked() { ChainLinked(c); }
        return data;
      }
      if base != null {
        forall c | c in base.Chain ensures c.Linked() && c.Chain <= base.Chain { base.ChainLinked(c); }
        var below := base.GetDataPtr();
        forall c | c in Chain && c != this ensures c.View() == old(c.View()) { ChainLinked(c); }
        data := below;
      } else {
        data := db.value;
      }
      r := data;
    }

    method GetData() returns (r: Option<Value>)
      requires Valid()
      modifies Chain
      ensures Valid() && forall c :: c in Chain ==> c.Linked() && c.View() == old(c.View())
      ensures r == View()
    {
      var ptr := GetDataPtr();
      r := if ptr.Some? && !IsEmpty(ptr.value) then ptr else None;
    }

    method SetData(value: Value) returns (ghost before: Value)
      requires Valid()
      modifies Chain, opLogMap
      ensures Valid() && View() == Live(value) && old(View()) == Live(before)
      ensures forall c :: c in Chain ==> c.Linked() && (c != this ==> c.View() == old(c.View()))
      ensures opLogMap != null ==> opLogMap.logs == Logged(old(opLogMap.logs), prefix, OpLog(EMPTY_KEY, before))
    {
      var ptr := GetDataPtr();
      label looked:
      var was := if data.Some? then data.value else NO_VALUE;
      before := was;
      AddOpLog(was);
      data := Some(value);
      OnlyMineChanged@looked();
    }

    method EraseData()
      requires Valid()
      modifies Chain, opLogMap
      ensures Valid() && View() == None
      ensures forall c :: c in Chain ==> c.Linked() && (c != this ==> c.View() == old(c.View()))
      ensures opLogMap != null ==> opLogMap.logs == ValueEraseLogged(old(opLogMap.logs), prefix, old(View()))
    {
      var ptr := GetDataPtr();
      label looked:
      if ptr.Some? && !IsEmpty(ptr.value) {
        AddOpLog(ptr.value);
        data := Some(NO_VALUE);
        OnlyMineChanged@looked();
      }
    }

    method AddOpLog(before: Value)
      modifies opLogMap
      ensures opLogMap != null ==> opLogMap.logs == Logged(old(opLogMap.logs), prefix, OpLog(EMPTY_KEY, before))
    {
      if opLogMap != null {
        opLogMap.AddOpLog(prefix, OpLog(EMPTY_KEY, before));
      }
    }

    /** Flush: the value moves one level down and every view stays, but the base now shows ours. */
    method Flush()
      requires Valid()
      modifies this`data, base, db
      ensures Valid() && data == None && View() == old(View()) && Below() == old(View())
      ensures base != null ==> forall c :: c in base.Chain && c != base ==> c.Linked() && c.View() == old(c.View())
    {
      if base != null {
        assert base.Linked() && base in base.Chain && forall c :: c in base.Chain ==> c in Chain && c != this;
        base.ChainsLinked();
      }
      if data.Some? {
        if base != null {
          base.data := data;
          base.OnlyMineChanged();
        } else {
          db.Write(data.value);
        }
        label moved:
        data := None;
        OnlyMineChanged@moved();
      }
    }

    method UndoData(log: OpLog)
      requires Valid()
      modifies this`data
      ensures Valid() && View() == Live(log.oldValue)
      ensures forall c :: c in Chain ==> c.Linked() && (c != this ==> c.View() == old(c.View()))
    {
      data := Some(log.oldValue);
      OnlyMineChanged();
    }

    method UndoDataList(logs: seq<OpLog>)
      requires Valid()
      modifies this`data
      ensures Valid() && View() == ValueUndone(old(View()), logs)
      ensures forall c :: c in Chain ==> c.Linked() && (c != this ==> c.View() == old(c.View()))
    {
      forall c | c in Chain ensures c.Linked() { ChainLinked(c); }
      var n := |logs|;
      while n > 0
        invariant 0 <= n <= |logs| && Valid()
        invariant View() == if n < |logs| then Live(logs[n].oldValue) else old(View())
        invariant forall c :: c in Chain ==> c.Linked() && (c != this ==> c.View() == old(c.View()))
      {
        n := n - 1;
        UndoData(logs[n]);
      }
    }
  }

  /** One call: SetData, with the value it found, or EraseData. */
  datatype ValueOp = SetValue(value: Value, before: Value) | EraseValue

  /** What the calls do to the view and add to the log. */
  ghost predicate ValueStep(view: Option<Value>, logs: seq<OpLog>, op: ValueOp, view': Option<Value>, logs': seq<OpLog>) {
    match op
    case SetValue(value, before) =>
      view == Live(before) && view' == Live(value) && logs' == logs + [OpLog(EMPTY_KEY, before)]
    case EraseValue =>
      view' == None && logs' == if view.Some? then logs + [OpLog(EMPTY_KEY, view.value)] else logs
  }

  ghost predicate ValueLive(view: Option<Value>) { view.Some? ==> !IsEmpty(view.value) }

  /** One more logged call makes no difference to what undoing gives. */
  lemma ValueStepIsUndone(view: Option<Value>, logs: seq<OpLog>, op: ValueOp, view': Option<Value>, logs': seq<OpLog>)
    requires ValueLive(view) && ValueStep(view, logs, op, view', logs')
    ensures ValueLive(view') && ValueUndone(view', logs') == ValueUndone(view, logs)
  {
    if logs != [] && logs' != logs { assert logs'[0] == logs[0]; }
  }
}
