/** Snapshotting of the account state. The file itself is not modelled: a saved
    snapshot is a record of optional fields (a key missing from the file reads
    as None), and loading merges it key by key over the current state. */
module Persistence {
  import opened Types

  /** The keys of a snapshot; for `position` the inner Option is the JSON null. */
  datatype Snapshot = Snapshot(
    balance: Option<real>,
    available: Option<real>,
    inPosition: Option<bool>,
    position: Option<Option<Position>>,
    trades: Option<seq<TradeRecord>>,
    tradeCounter: Option<int>,
    skipNextSignal: Option<bool>)

  /** What reading the state file yields: no file, a file that fails to parse, or a snapshot. */
  datatype StateFile = Absent | Unreadable | Present(snapshot: Snapshot)

  /** Every key is present. */
  predicate Complete(snap: Snapshot) {
    && snap.balance.Some? && snap.available.Some? && snap.inPosition.Some?
    && snap.position.Some? && snap.trades.Some? && snap.tradeCounter.Some?
    && snap.skipNextSignal.Some?
  }

  /** Writes every field of the state. */
  function Save(s: AccountState): (snap: Snapshot)
    ensures Complete(snap)
  {
    Snapshot(Some(s.balance), Some(s.available), Some(s.inPosition), Some(s.position),
             Some(s.trades), Some(s.tradeCounter), Some(s.skipNextSignal))
  }

  /** Loads `file` over `current`: a missing or unreadable file leaves the state
      as it is; otherwise each key present replaces its field and each missing
      key keeps the field's current value. */
  function Load(current: AccountState, file: StateFile): (r: AccountState)
    ensures !file.Present? ==> r == current
    ensures file.Present? ==>
      var snap := file.snapshot;
      && (snap.balance.Some? ==> r.balance == snap.balance.value)
      && (snap.balance.None? ==> r.balance == current.balance)
      && (snap.available.Some? ==> r.available == snap.available.value)
      && (snap.available.None? ==> r.available == current.available)
      && (snap.inPosition.Some? ==> r.inPosition == snap.inPosition.value)
      && (snap.inPosition.None? ==> r.inPosition == current.inPosition)
      && (snap.position.Some? ==> r.position == snap.position.value)
      && (snap.position.None? ==> r.position == current.position)
      && (snap.trades.Some? ==> r.trades == snap.trades.value)
      && (snap.trades.None? ==> r.trades == current.trades)
      && (snap.tradeCounter.Some? ==> r.tradeCounter == snap.tradeCounter.value)
      && (snap.tradeCounter.None? ==> r.tradeCounter == current.tradeCounter)
      && (snap.skipNextSignal.Some? ==> r.skipNextSignal == snap.skipNextSignal.value)
      && (snap.skipNextSignal.None? ==> r.skipNextSignal == current.skipNextSignal)
  {
    match file
    case Absent => current
    case Unreadable => current
    case Present(snap) =>
      AccountState(
        snap.balance.GetOr(current.balance),
        snap.available.GetOr(current.available),
        snap.inPosition.GetOr(current.inPosition),
        snap.position.GetOr(current.position),
        snap.trades.GetOr(current.trades),
        snap.tradeCounter.GetOr(current.tradeCounter),
        snap.skipNextSignal.GetOr(current.skipNextSignal))
  }

  /** The load performed when the engine starts, over the initial state. */
  function Startup(file: StateFile): (r: AccountState)
    ensures !file.Present? ==> r == Initial
    ensures file.Present? && Complete(file.snapshot) ==> Save(r) == file.snapshot
    ensures file.Present? ==>
      // keys present in the file take the file's values
      var snap := file.snapshot;
      && (snap.balance.Some? ==> r.balance == snap.balance.value)
      && (snap.available.Some? ==> r.available == snap.available.value)
      && (snap.inPosition.Some? ==> r.inPosition == snap.inPosition.value)
      && (snap.position.Some? ==> r.position == snap.position.value)
      && (snap.trades.Some? ==> r.trades == snap.trades.value)
      && (snap.tradeCounter.Some? ==> r.tradeCounter == snap.tradeCounter.value)
      && (snap.skipNextSignal.Some? ==> r.skipNextSignal == snap.skipNextSignal.value)
    ensures file.Present? ==>
      // keys absent from the file take the initial values
      var snap := file.snapshot;
      && (snap.balance.None? ==> r.balance == StartBank)
      && (snap.available.None? ==> r.available == StartBank)
      && (snap.inPosition.None? ==> !r.inPosition)
      && (snap.position.None? ==> r.position == None)
      && (snap.trades.None? ==> r.trades == [])
      && (snap.tradeCounter.None? ==> r.tradeCounter == 0)
      && (snap.skipNextSignal.None? ==> !r.skipNextSignal)
  {
    Load(Initial, file)
  }

  /** The initial state satisfies the account invariant, so a start without a
      readable file begins consistent. */
  lemma StartupWithoutFileConsistent(file: StateFile)
    requires !file.Present?
    ensures Consistent(Startup(file))
  {
  }

  /** Saving and loading reproduces every field, whatever the state loaded over. */
  lemma SaveLoadRoundTrip(current: AccountState, s: AccountState)
    ensures Load(current, Present(Save(s))) == s
  {
  }

  /** Loading the same file twice is the same as loading it once. */
  lemma LoadIdempotent(current: AccountState, file: StateFile)
    ensures Load(Load(current, file), file) == Load(current, file)
  {
  }

  /** A complete snapshot determines the loaded state on its own. */
  lemma CompleteSnapshotIgnoresCurrent(a: AccountState, b: AccountState, snap: Snapshot)
    requires Complete(snap)
    ensures Load(a, Present(snap)) == Load(b, Present(snap))
  {
  }

  /** Saving a loaded complete snapshot writes the same snapshot back. */
  lemma LoadSaveRoundTrip(current: AccountState, snap: Snapshot)
    requires Complete(snap)
    ensures Save(Load(current, Present(snap))) == snap
  {
  }
}
