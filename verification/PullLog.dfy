/**
 * The concurrent appender behind the pull log (packages/db/src/queries/breaks.ts): transactions
 * that read the tip, hash, insert under the unique (break, seq) index, and commit or roll back, in
 * any interleaving, among changes of the break's status and of the catalogue; and the log as it is
 * read back. Each method of `PullTable` is one such step; what holds of every run is proved about the
 * relation the methods refine.
 */
module PullLog {
  import opened Wrappers
  import opened PullChain
  import opened Uuids

  const MAX_PULLS_PER_BREAK: nat := 2000

  datatype BreakStatus = Draft | Live | Ended

  /** The break's own row, as far as the status goes. */
  datatype BreakRow = BreakRow(status: BreakStatus, startedAt: Option<int>, endedAt: Option<int>)

  /** `breaks_timestamps_follow_status`: what the database accepts. */
  predicate Consistent(b: BreakRow) {
    match b.status
    case Draft => b.startedAt == None && b.endedAt == None
    case Live => b.startedAt.Some? && b.endedAt == None
    case Ended => b.startedAt.Some? && b.endedAt.Some? && b.endedAt.value >= b.startedAt.value
  }

  predicate MayBecome(status: BreakStatus, next: BreakStatus) {
    if next == Live then status == Draft else status == Live
  }

  /** What setting the status writes, whatever the row says by then. */
  function Restamped(b: BreakRow, next: BreakStatus, now: int): BreakRow {
    if next == Live then b.(status := Live, startedAt := Some(now)) else b.(status := Ended, endedAt := Some(now))
  }

  /** Where one `logPull` transaction has got to. */
  datatype Phase =
    | Checked                                  // the break was live and below its limit when looked at
    | HasTip(seqNo: nat, prevHash: string)     // the tip was read; this is the link to write
    | Inserted(row: Row)                       // written, not yet visible to anybody else
    | Finished

  type Tx = nat

  /** A catalogue card's id as its column prints it. */
  type CardId = string

  /**
   * The break; who has read its status and means to change it; the committed rows by sequence number,
   * which the unique index makes a map, each as it was hashed; the open pull transactions; and the
   * cards that have left the catalogue.
   */
  datatype State = State(
    brk: BreakRow, setters: map<Tx, BreakStatus>, rows: map<nat, Row>, txs: map<Tx, Phase>, gone: set<CardId>)

  datatype LogError = NotLive | LimitReached | BadValue | CheckFailed | Conflict | MissingCard

  // ------------------------------------------------------------------ //
  // What the table takes, and what it gives back
  // ------------------------------------------------------------------ //

  /** A uuid column, an integer column and a text column. */
  predicate ColumnsTake(p: Pull) {
    && (p.cardVariantId.Some? ==> Stored(p.cardVariantId.value).Some?)
    && -0x8000_0000 <= p.valueCentsAtPull <= 0x7FFF_FFFF
    && (p.cardLabel.Some? ==> '\0' !in p.cardLabel.value)
  }

  predicate Labelled(p: Pull) {
    p.cardLabel.Some? && exists k :: 0 <= k < |p.cardLabel.value| && p.cardLabel.value[k] != ' '
  }

  /** `break_pulls_value_non_negative` and `break_pulls_identified`. */
  predicate ChecksPass(p: Pull) {
    p.valueCentsAtPull >= 0 && (p.cardVariantId.Some? || Labelled(p))
  }

  predicate Names(p: Pull, card: CardId) {
    p.cardVariantId.Some? && Stored(p.cardVariantId.value) == Some(card)
  }

  /** The pull as a later query returns it: the card id as its column prints it, or null once the card is gone. */
  function AsStored(p: Pull, gone: set<CardId>): Pull {
    match p.cardVariantId
    case None => p
    case Some(id) =>
      match Stored(id)
      case None => p.(cardVariantId := None)
      case Some(card) => p.(cardVariantId := if card in gone then None else Some(card))
  }

  function ReadBack(log: seq<Row>, gone: set<CardId>): (read: seq<Row>)
    ensures |read| == |log|
  {
    seq(|log|, k requires 0 <= k < |log| => log[k].(pull := AsStored(log[k].pull, gone)))
  }

  // ------------------------------------------------------------------ //
  // Steps
  // ------------------------------------------------------------------ //

  /** The committed row with the largest sequence number. */
  predicate IsTip(rows: map<nat, Row>, n: nat) {
    n in rows && forall k :: k in rows ==> k <= n
  }

  predicate NextLink(rows: map<nat, Row>, seqNo: nat, prevHash: string) {
    if rows == map[] then seqNo == 1 && prevHash == GENESIS_HASH
    else seqNo >= 1 && IsTip(rows, seqNo - 1) && prevHash == rows[seqNo - 1].rowHash
  }

  ghost predicate BeginStep(s: State, s': State, t: Tx) {
    t !in s.txs && s.brk.status == Live && |s.rows| < MAX_PULLS_PER_BREAK && s' == s.(txs := s.txs[t := Checked])
  }

  ghost predicate ReadTipStep(s: State, s': State, t: Tx) {
    t in s.txs && s.txs[t] == Checked
    && exists seqNo, prevHash ::
         NextLink(s.rows, seqNo, prevHash) && s' == s.(txs := s.txs[t := HasTip(seqNo, prevHash)])
  }

  /** A row another transaction has written and not committed makes the index wait. */
  predicate Blocked(s: State, t: Tx, seqNo: nat) {
    exists u :: u in s.txs && u != t && s.txs[u].Inserted? && s.txs[u].row.pull.seqNo == seqNo
  }

  ghost predicate InsertStep(sha256: Hash, s: State, s': State, t: Tx, p: Pull) {
    && t in s.txs && s.txs[t].HasTip? && p.seqNo == s.txs[t].seqNo
    && s.txs[t].seqNo !in s.rows && !Blocked(s, t, s.txs[t].seqNo)
    && ColumnsTake(p) && ChecksPass(p) && (forall card :: card in s.gone ==> !Names(p, card))
    && var prev := s.txs[t].prevHash;
       s' == s.(txs := s.txs[t := Inserted(Row(p, prev, HashPull(sha256, prev, p)))])
  }

  ghost predicate CommitStep(s: State, s': State, t: Tx) {
    t in s.txs && s.txs[t].Inserted? && s.txs[t].row.pull.seqNo >= 0
    && s' == s.(rows := s.rows[s.txs[t].row.pull.seqNo := s.txs[t].row], txs := s.txs[t := Finished])
  }

  /**
   * A card leaves the catalogue and `on delete set null` clears its column, unless that would leave a
   * pull with nothing to identify it. A pull being inserted holds its card until it commits.
   */
  ghost predicate DeleteCardStep(s: State, s': State, card: CardId) {
    && (forall t :: t in s.txs && s.txs[t].Inserted? ==> !Names(s.txs[t].row.pull, card))
    && (forall n :: n in s.rows && Names(s.rows[n].pull, card) ==> Labelled(s.rows[n].pull))
    && s' == s.(gone := s.gone + {card})
  }

  /** A refused value, a conflict on the index, a missing card, or a crash: nothing the transaction did remains. */
  ghost predicate RollbackStep(s: State, s': State, t: Tx) {
    t in s.txs && s' == s.(txs := s.txs[t := Finished])
  }

  /** `setBreakStatus` reads the status, without a lock, */
  ghost predicate SetReadStep(s: State, s': State, t: Tx, next: BreakStatus) {
    && t !in s.setters && next != Draft && MayBecome(s.brk.status, next)
    && s' == s.(setters := s.setters[t := next])
  }

  /** and then updates the row, in whatever state it is by now, if the check lets it; */
  ghost predicate SetWriteStep(s: State, s': State, t: Tx, now: int) {
    && t in s.setters && Consistent(Restamped(s.brk, s.setters[t], now))
    && s' == s.(brk := Restamped(s.brk, s.setters[t], now), setters := s.setters - {t})
  }

  /** or fails. */
  ghost predicate SetFailStep(s: State, s': State, t: Tx) {
    s' == s.(setters := s.setters - {t})
  }

  ghost predicate StatusStep(s: State, s': State) {
    || (exists t, next :: SetReadStep(s, s', t, next))
    || (exists t, now :: SetWriteStep(s, s', t, now))
    || (exists t :: SetFailStep(s, s', t))
  }

  ghost predicate Step(sha256: Hash, s: State, s': State) {
    || s' == s
    || StatusStep(s, s')
    || (exists t :: BeginStep(s, s', t))
    || (exists t :: ReadTipStep(s, s', t))
    || (exists t, p :: InsertStep(sha256, s, s', t, p))
    || (exists t :: CommitStep(s, s', t))
    || (exists t :: RollbackStep(s, s', t))
    || (exists card :: DeleteCardStep(s, s', card))
  }

  ghost predicate Initial(s: State) {
    s == State(BreakRow(Draft, None, None), map[], map[], map[], {})
  }

  ghost predicate Run(sha256: Hash, trace: seq<State>) {
    |trace| > 0 && Initial(trace[0]) && forall k :: 0 <= k < |trace| - 1 ==> Step(sha256, trace[k], trace[k + 1])
  }

  // ------------------------------------------------------------------ //
  // What every reachable log looks like
  // ------------------------------------------------------------------ //

  /** The sequence numbers in use are 1, ..., n. */
  ghost predicate Contiguous(rows: map<nat, Row>) {
    forall k :: k in rows <==> 1 <= k <= |rows|
  }

  /** The log as it is read back, in order of sequence number. */
  function Log(rows: map<nat, Row>): (log: seq<Row>)
    requires forall k :: k in rows <==> 1 <= k <= |rows|
    ensures |log| == |rows| && forall k :: 0 <= k < |rows| ==> log[k] == rows[k + 1]
  {
    seq(|rows|, k requires 0 <= k < |rows| => rows[k + 1])
  }

  /** The link a writer holds is the right one for its sequence number, current or stale. */
  ghost predicate PhaseOk(sha256: Hash, rows: map<nat, Row>, phase: Phase)
    requires Contiguous(rows)
  {
    match phase
    case HasTip(seqNo, prevHash) => 1 <= seqNo <= |rows| + 1 && prevHash == ExpectedPrev(Log(rows), seqNo - 1)
    case Inserted(row) =>
      && row.pull.seqNo == |rows| + 1
      && row.prevHash == ExpectedPrev(Log(rows), |rows|)
      && row.rowHash == HashPull(sha256, row.prevHash, row.pull)
    case _ => true
  }

  ghost predicate RowsOk(sha256: Hash, rows: map<nat, Row>) {
    && Contiguous(rows)
    && WellLinked(sha256, Log(rows))
    && forall k :: k in rows ==> rows[k].pull.seqNo == k
  }

  ghost predicate Inv(sha256: Hash, s: State) {
    && RowsOk(sha256, s.rows)
    && (forall t :: t in s.txs ==> PhaseOk(sha256, s.rows, s.txs[t]))
    && (forall t, u :: t in s.txs && u in s.txs && s.txs[t].Inserted? && s.txs[u].Inserted? ==> t == u)
  }

  lemma TipIsLast(rows: map<nat, Row>, seqNo: nat, prevHash: string)
    requires Contiguous(rows) && NextLink(rows, seqNo, prevHash)
    ensures seqNo == |rows| + 1 && prevHash == ExpectedPrev(Log(rows), |rows|)
  {
    if rows == map[] {
      assert |rows| == 0;
    } else {
      assert seqNo - 1 in rows;
      assert |rows| in rows;
    }
  }

  /** A commit appends the row it carries. */
  lemma CommitAppends(sha256: Hash, s: State, s': State, t: Tx)
    requires Inv(sha256, s) && CommitStep(s, s', t)
    ensures Contiguous(s'.rows)
    ensures Log(s'.rows) == Log(s.rows) + [s.txs[t].row]
  {
    assert PhaseOk(sha256, s.rows, s.txs[t]);
    hide PhaseOk, WellLinked;
    assert |s.rows| + 1 !in s.rows && |s'.rows| == |s.rows| + 1;
  }

  /** A row that links to the end of a well-linked log makes a longer one. */
  lemma LinkedRowExtends(sha256: Hash, log: seq<Row>, row: Row)
    requires WellLinked(sha256, log)
    requires row.prevHash == ExpectedPrev(log, |log|) && row.rowHash == HashPull(sha256, row.prevHash, row.pull)
    ensures WellLinked(sha256, log + [row])
  {
    hide HashPull;
    var longer := log + [row];
    forall k | 0 <= k < |longer| ensures RowLinked(sha256, longer, k) {
      if k < |log| { assert RowLinked(sha256, log, k); }
    }
  }

  lemma HeldLinksStay(sha256: Hash, rows: map<nat, Row>, rows': map<nat, Row>, row: Row, phase: Phase)
    requires Contiguous(rows) && Contiguous(rows') && Log(rows') == Log(rows) + [row]
    requires PhaseOk(sha256, rows, phase) && !phase.Inserted?
    ensures PhaseOk(sha256, rows', phase)
  {
  }

  lemma CommitKeepsInv(sha256: Hash, s: State, s': State, t: Tx)
    requires Inv(sha256, s) && CommitStep(s, s', t)
    ensures Inv(sha256, s')
  {
    var row := s.txs[t].row;
    assert PhaseOk(sha256, s.rows, s.txs[t]);
    CommitAppends(sha256, s, s', t);
    LinkedRowExtends(sha256, Log(s.rows), row);
    hide PhaseOk, WellLinked;
    forall u | u in s'.txs ensures PhaseOk(sha256, s'.rows, s'.txs[u]) {
      if u == t {
        FinishedIsOk(sha256, s'.rows);
      } else {
        HeldLinksStay(sha256, s.rows, s'.rows, row, s.txs[u]);
      }
    }
  }

  lemma FinishedIsOk(sha256: Hash, rows: map<nat, Row>)
    requires Contiguous(rows)
    ensures PhaseOk(sha256, rows, Finished)
  {
  }

  lemma InsertKeepsInv(sha256: Hash, s: State, s': State, t: Tx, p: Pull)
    requires Inv(sha256, s) && InsertStep(sha256, s, s', t, p)
    ensures Inv(sha256, s')
  {
    assert PhaseOk(sha256, s.rows, s.txs[t]);
    assert p.seqNo == |s.rows| + 1;
    forall u | u in s.txs && u != t ensures !s.txs[u].Inserted? {
      assert PhaseOk(sha256, s.rows, s.txs[u]);
    }
    forall u | u in s'.txs ensures PhaseOk(sha256, s'.rows, s'.txs[u]) {
      assert u == t || PhaseOk(sha256, s.rows, s.txs[u]);
    }
  }

  lemma ReadTipKeepsInv(sha256: Hash, s: State, s': State, t: Tx)
    requires Inv(sha256, s) && ReadTipStep(s, s', t)
    ensures Inv(sha256, s') && s'.txs[t].HasTip? && s'.txs[t].seqNo == |s.rows| + 1
  {
    var seqNo, prevHash :| NextLink(s.rows, seqNo, prevHash) && s' == s.(txs := s.txs[t := HasTip(seqNo, prevHash)]);
    TipIsLast(s.rows, seqNo, prevHash);
    forall u | u in s'.txs ensures PhaseOk(sha256, s'.rows, s'.txs[u]) {
      assert u == t || PhaseOk(sha256, s.rows, s.txs[u]);
    }
  }

  /** Starting, rolling back and changing the break's status leave the rows and the held links alone. */
  lemma QuietStepKeepsInv(sha256: Hash, s: State, s': State, t: Tx, phase: Phase)
    requires Inv(sha256, s) && s'.rows == s.rows
    requires s'.txs == s.txs || (s'.txs == s.txs[t := phase] && (phase == Checked || phase == Finished))
    ensures Inv(sha256, s')
  {
    forall u | u in s'.txs ensures PhaseOk(sha256, s'.rows, s'.txs[u]) {
      assert u in s.txs ==> PhaseOk(sha256, s.rows, s.txs[u]);
    }
  }

  lemma StepKeepsInv(sha256: Hash, s: State, s': State)
    requires Inv(sha256, s) && Step(sha256, s, s')
    ensures Inv(sha256, s')
  {
    if s' == s || StatusStep(s, s') {
      QuietStepKeepsInv(sha256, s, s', 0, Finished);
    } else if t :| BeginStep(s, s', t) {
      QuietStepKeepsInv(sha256, s, s', t, Checked);
    } else if t :| RollbackStep(s, s', t) {
      QuietStepKeepsInv(sha256, s, s', t, Finished);
    } else if t :| ReadTipStep(s, s', t) {
      ReadTipKeepsInv(sha256, s, s', t);
    } else if t, p :| InsertStep(sha256, s, s', t, p) {
      InsertKeepsInv(sha256, s, s', t, p);
    } else if card :| DeleteCardStep(s, s', card) {
      QuietStepKeepsInv(sha256, s, s', 0, Finished);
    } else {
      var t :| CommitStep(s, s', t);
      CommitKeepsInv(sha256, s, s', t);
    }
  }

  lemma RunStep(sha256: Hash, trace: seq<State>, k: nat)
    requires Run(sha256, trace) && k + 1 < |trace|
    ensures Step(sha256, trace[k], trace[k + 1])
  {
    hide Step;
  }

  lemma {:induction false} RunKeepsInv(sha256: Hash, trace: seq<State>, k: nat)
    requires Run(sha256, trace) && k < |trace|
    ensures Inv(sha256, trace[k])
  {
    if k == 0 {
    } else {
      hide *;
      RunKeepsInv(sha256, trace, k - 1);
      RunStep(sha256, trace, k - 1);
      StepKeepsInv(sha256, trace[k - 1], trace[k]);
    }
  }

  /**
   * In every interleaving the committed sequence numbers are exactly 1..n, row k carries number k, and
   * each row, as it was hashed, links to the one before it.
   */
  lemma EveryReachableLogIsLinked(sha256: Hash, trace: seq<State>, k: nat)
    requires Run(sha256, trace) && k < |trace|
    ensures Contiguous(trace[k].rows)
    ensures forall n :: n in trace[k].rows ==> trace[k].rows[n].pull.seqNo == n
    ensures WellLinked(sha256, Log(trace[k].rows))
  {
    RunKeepsInv(sha256, trace, k);
  }

  /** A step that is not a commit leaves the rows alone. */
  lemma OtherStepsKeepRows(sha256: Hash, s: State, s': State)
    requires Step(sha256, s, s') && !exists t :: CommitStep(s, s', t)
    ensures s'.rows == s.rows
  {
    hide NextLink, HashPull, Blocked;
  }

  lemma StepExtendsLog(sha256: Hash, s: State, s': State)
    requires Inv(sha256, s) && Inv(sha256, s') && Step(sha256, s, s')
    ensures Log(s.rows) <= Log(s'.rows)
  {
    if t :| CommitStep(s, s', t) {
      hide PhaseOk, WellLinked, Step, CommitStep;
      CommitAppends(sha256, s, s', t);
    } else {
      OtherStepsKeepRows(sha256, s, s');
    }
  }

  /** Append-only: a committed row is never changed or removed, so an earlier log is a prefix of a later one. */
  lemma {:induction false} EarlierLogIsPrefix(sha256: Hash, trace: seq<State>, i: nat, j: nat)
    requires Run(sha256, trace) && i <= j < |trace|
    ensures Contiguous(trace[i].rows) && Contiguous(trace[j].rows)
    ensures Log(trace[i].rows) <= Log(trace[j].rows)
    decreases j
  {
    hide Step, PhaseOk, WellLinked, HashPull;
    RunKeepsInv(sha256, trace, j);
    if i == j {
    } else {
      EarlierLogIsPrefix(sha256, trace, i, j - 1);
      RunKeepsInv(sha256, trace, j - 1);
      StepExtendsLog(sha256, trace[j - 1], trace[j]);
      PrefixOfPrefix(Log(trace[i].rows), Log(trace[j - 1].rows), Log(trace[j].rows));
    }
  }

  lemma PrefixOfPrefix(a: seq<Row>, b: seq<Row>, c: seq<Row>)
    requires a <= b <= c
    ensures a <= c
  {
  }

  // ------------------------------------------------------------------ //
  // Building runs
  // ------------------------------------------------------------------ //

  lemma RunGrows(sha256: Hash, trace: seq<State>, s: State) returns (longer: seq<State>)
    requires Run(sha256, trace) && Step(sha256, trace[|trace| - 1], s)
    ensures longer == trace + [s] && Run(sha256, longer)
  {
    hide Step, Initial;
    longer := trace + [s];
    forall k | 0 <= k < |longer| - 1 ensures Step(sha256, longer[k], longer[k + 1]) {
      assert k < |trace| - 1 ==> longer[k] == trace[k] && longer[k + 1] == trace[k + 1];
    }
  }

  lemma StatusIsRead(sha256: Hash, trace: seq<State>, t: Tx, next: BreakStatus) returns (longer: seq<State>)
    requires Run(sha256, trace) && t !in trace[|trace| - 1].setters && next != Draft
    requires MayBecome(trace[|trace| - 1].brk.status, next)
    ensures var s := trace[|trace| - 1]; longer == trace + [s.(setters := s.setters[t := next])]
    ensures Run(sha256, longer)
  {
    assert |trace| > 0;
    hide Run;
    var s := trace[|trace| - 1];
    var s' := s.(setters := s.setters[t := next]);
    assert SetReadStep(s, s', t, next);
    assert StatusStep(s, s');
    hide StatusStep, SetReadStep;
    longer := RunGrows(sha256, trace, s');
  }

  lemma StatusIsWritten(sha256: Hash, trace: seq<State>, t: Tx, now: int) returns (longer: seq<State>)
    requires Run(sha256, trace) && t in trace[|trace| - 1].setters
    requires var s := trace[|trace| - 1]; Consistent(Restamped(s.brk, s.setters[t], now))
    ensures var s := trace[|trace| - 1];
            longer == trace + [s.(brk := Restamped(s.brk, s.setters[t], now), setters := s.setters - {t})]
    ensures Run(sha256, longer)
  {
    assert |trace| > 0;
    hide Run, Consistent;
    var s := trace[|trace| - 1];
    var s' := s.(brk := Restamped(s.brk, s.setters[t], now), setters := s.setters - {t});
    assert SetWriteStep(s, s', t, now);
    assert StatusStep(s, s');
    hide StatusStep, SetWriteStep;
    longer := RunGrows(sha256, trace, s');
  }

  const FRESH := State(BreakRow(Draft, None, None), map[], map[], map[], {})

  // ------------------------------------------------------------------ //
  // The log as it is read back
  // ------------------------------------------------------------------ //

  /** The card id was written as its column prints it, and the card is still there. */
  predicate InStoredForm(p: Pull, gone: set<CardId>) {
    p.cardVariantId.Some? ==> Stored(p.cardVariantId.value) == p.cardVariantId && p.cardVariantId.value !in gone
  }

  lemma StoredFormIff(p: Pull, gone: set<CardId>)
    ensures AsStored(p, gone) == p <==> InStoredForm(p, gone)
  {
    hide Stored;
  }

  /** Two different texts that hash alike: what was hashed, and what is read back. */
  predicate HashesAlike(sha256: Hash, row: Row, gone: set<CardId>) {
    && HashInput(row.prevHash, row.pull) != HashInput(row.prevHash, AsStored(row.pull, gone))
    && HashPull(sha256, row.prevHash, row.pull) == HashPull(sha256, row.prevHash, AsStored(row.pull, gone))
  }

  lemma DifferentPullsDifferentInputs(prevHash: string, p: Pull, q: Pull)
    requires p != q
    ensures HashInput(prevHash, p) != HashInput(prevHash, q)
  {
    assert CanonicalPull(p) == HashInput(prevHash, p)[|prevHash|..];
    assert CanonicalPull(q) == HashInput(prevHash, q)[|prevHash|..];
    hide CanonicalPull, HashInput;
    if CanonicalPull(p) == CanonicalPull(q) { CanonicalPullInjective(p, q); }
  }

  lemma RowReadBackIff(sha256: Hash, log: seq<Row>, gone: set<CardId>, k: nat)
    requires WellLinked(sha256, log) && k < |log|
    ensures RowLinked(sha256, ReadBack(log, gone), k)
            <==> InStoredForm(log[k].pull, gone) || HashesAlike(sha256, log[k], gone)
  {
    assert RowLinked(sha256, log, k);
    assert ReadBack(log, gone)[k] == log[k].(pull := AsStored(log[k].pull, gone));
    assert ExpectedPrev(ReadBack(log, gone), k) == ExpectedPrev(log, k);
    hide GENESIS_HASH, WellLinked;
    StoredFormIff(log[k].pull, gone);
    if !InStoredForm(log[k].pull, gone) {
      DifferentPullsDifferentInputs(log[k].prevHash, log[k].pull, AsStored(log[k].pull, gone));
    }
    hide InStoredForm, AsStored, CanonicalPull, HashInput;
  }

  /**
   * In every run, the log as it is read back is well linked, and so accepted by `VerifyChain`, exactly
   * when every card id was written in the form its column prints and its card is still in the
   * catalogue, or a pull and what is read back of it hash alike.
   */
  lemma AcceptedAsReadIff(sha256: Hash, trace: seq<State>, k: nat)
    requires Run(sha256, trace) && k < |trace|
    ensures Contiguous(trace[k].rows)
    ensures var s := trace[k];
            WellLinked(sha256, ReadBack(Log(s.rows), s.gone))
            <==> forall n :: n in s.rows ==>
              InStoredForm(s.rows[n].pull, s.gone) || HashesAlike(sha256, s.rows[n], s.gone)
  {
    RunKeepsInv(sha256, trace, k);
    var s := trace[k];
    var log := Log(s.rows);
    hide Run, Inv, RowLinked, InStoredForm, HashesAlike;
    forall n | 0 <= n < |log|
      ensures RowLinked(sha256, ReadBack(log, s.gone), n)
              <==> InStoredForm(s.rows[n + 1].pull, s.gone) || HashesAlike(sha256, s.rows[n + 1], s.gone)
    {
      RowReadBackIff(sha256, log, s.gone, n);
    }
    if n :| n in s.rows && !(InStoredForm(s.rows[n].pull, s.gone) || HashesAlike(sha256, s.rows[n], s.gone)) {
      assert !RowLinked(sha256, ReadBack(log, s.gone), n - 1);
    }
  }

  /** Cards do not come back. */
  lemma {:induction false} GoneStaysGone(sha256: Hash, trace: seq<State>, i: nat, j: nat)
    requires Run(sha256, trace) && i <= j < |trace|
    ensures trace[i].gone <= trace[j].gone
    decreases j
  {
    hide *;
    if i == j {
    } else {
      GoneStaysGone(sha256, trace, i, j - 1);
      RunStep(sha256, trace, j - 1);
      GoneGrows(sha256, trace[j - 1], trace[j]);
    }
  }

  lemma GoneGrows(sha256: Hash, s: State, s': State)
    requires Step(sha256, s, s')
    ensures s.gone <= s'.gone
  {
    hide NextLink, HashPull, Blocked, Names, Consistent, ColumnsTake, ChecksPass, Labelled;
  }

  /** A pull that was altered on its way into the table, or later, stays so: the report never clears. */
  lemma AlteredForEver(sha256: Hash, trace: seq<State>, i: nat, j: nat, n: nat)
    requires Run(sha256, trace) && i <= j < |trace| && n in trace[i].rows
    requires !InStoredForm(trace[i].rows[n].pull, trace[i].gone)
    ensures n in trace[j].rows && trace[j].rows[n] == trace[i].rows[n]
    ensures !InStoredForm(trace[j].rows[n].pull, trace[j].gone)
  {
    EarlierLogIsPrefix(sha256, trace, i, j);
    GoneStaysGone(sha256, trace, i, j);
    var a, b := Log(trace[i].rows), Log(trace[j].rows);
    assert b[n - 1] == a[n - 1];
    hide Run, Stored;
  }

  /**
   * Every card id with a capital letter makes such a run: the route takes it, the pull is hashed with
   * it, and the one row of the log fails its own check unless two texts hash alike.
   */
  lemma CapitalsAreReported(sha256: Hash, id: string, pulledAt: string) returns (trace: seq<State>)
    requires Shaped(id, 16) && exists k :: 0 <= k < |id| && 'A' <= id[k] <= 'Z'
    ensures Run(sha256, trace) && |trace| == 7
    ensures trace[6].rows.Keys == {1} && trace[6].rows[1].pull.cardVariantId == Some(id) && trace[6].gone == {}
    ensures Contiguous(trace[6].rows)
    ensures WellLinked(sha256, ReadBack(Log(trace[6].rows), {})) ==> HashesAlike(sha256, trace[6].rows[1], {})
  {
    StoredIsLowerCase(id);
    var p := Pull(1, Some(id), None, 0, "index", pulledAt);
    assert !InStoredForm(p, {});
    assert ColumnsTake(p) && ChecksPass(p);
    hide Stored, Shaped, HashPull, ColumnsTake, ChecksPass, InStoredForm, Names, HashesAlike, WellLinked;
    var row := Row(p, GENESIS_HASH, HashPull(sha256, GENESIS_HASH, p));
    var live := FRESH.(brk := BreakRow(Live, Some(0), None));
    trace := StatusIsRead(sha256, [FRESH], 1, Live);
    trace := StatusIsWritten(sha256, trace, 1, 0);
    assert trace[1].setters - {1} == map[];
    assert trace[2] == live;
    trace := FirstPull(sha256, trace, live, row);
    hide Run, ReadBack;
    AcceptedAsReadIff(sha256, trace, 6);
  }

  /** The steps of one undisturbed call on a break without pulls. */
  lemma FirstPull(sha256: Hash, before: seq<State>, live: State, row: Row) returns (trace: seq<State>)
    requires Run(sha256, before) && before[|before| - 1] == live
    requires live.brk.status == Live && live.rows == map[] && live.txs == map[] && live.gone == {}
    requires row.pull.seqNo == 1 && ColumnsTake(row.pull) && ChecksPass(row.pull)
    requires row.prevHash == GENESIS_HASH && row.rowHash == HashPull(sha256, GENESIS_HASH, row.pull)
    ensures |trace| == |before| + 4 && before <= trace && Run(sha256, trace)
    ensures trace[|trace| - 1] == live.(rows := map[1 := row], txs := map[1 := Finished])
  {
    assert |before| > 0;
    hide Run, HashPull, ColumnsTake, ChecksPass, Step;
    FirstPullSteps(sha256, live, row);
    trace := RunGrows(sha256, before, live.(txs := map[1 := Checked]));
    trace := RunGrows(sha256, trace, live.(txs := map[1 := HasTip(1, GENESIS_HASH)]));
    trace := RunGrows(sha256, trace, live.(txs := map[1 := Inserted(row)]));
    trace := RunGrows(sha256, trace, live.(rows := map[1 := row], txs := map[1 := Finished]));
  }

  lemma FirstPullSteps(sha256: Hash, live: State, row: Row)
    requires live.brk.status == Live && live.rows == map[] && live.txs == map[] && live.gone == {}
    requires row.pull.seqNo == 1 && ColumnsTake(row.pull) && ChecksPass(row.pull)
    requires row.prevHash == GENESIS_HASH && row.rowHash == HashPull(sha256, GENESIS_HASH, row.pull)
    ensures var s3, s4 := live.(txs := map[1 := Checked]), live.(txs := map[1 := HasTip(1, GENESIS_HASH)]);
            var s5, s6 := live.(txs := map[1 := Inserted(row)]),
              live.(rows := map[1 := row], txs := map[1 := Finished]);
            Step(sha256, live, s3) && Step(sha256, s3, s4) && Step(sha256, s4, s5) && Step(sha256, s5, s6)
  {
    hide HashPull, ColumnsTake, ChecksPass, Names;
    var s3, s4 := live.(txs := map[1 := Checked]), live.(txs := map[1 := HasTip(1, GENESIS_HASH)]);
    var s5, s6 := live.(txs := map[1 := Inserted(row)]), live.(rows := map[1 := row], txs := map[1 := Finished]);
    assert BeginStep(live, s3, 1);
    assert ReadTipStep(s3, s4, 1) by { assert NextLink(s3.rows, 1, GENESIS_HASH); }
    assert InsertStep(sha256, s4, s5, 1, row.pull) by { hide NextLink; }
    assert CommitStep(s5, s6, 1);
    hide BeginStep, ReadTipStep, InsertStep, CommitStep, StatusStep, RollbackStep, DeleteCardStep, NextLink, Blocked;
  }

  // ------------------------------------------------------------------ //
  // The break's status under concurrent changes
  // ------------------------------------------------------------------ //

  function Order(status: BreakStatus): nat {
    match status
    case Draft => 0
    case Live => 1
    case Ended => 2
  }

  /** The row passes its check, and nobody is about to end a break that has not started. */
  ghost predicate BreakOk(s: State) {
    Consistent(s.brk) && forall t :: t in s.setters && s.setters[t] != Live ==>
      s.setters[t] == Ended && s.brk.status != Draft
  }

  lemma StatusStepKeepsBreak(s: State, s': State)
    requires BreakOk(s) && StatusStep(s, s')
    ensures BreakOk(s') && Order(s.brk.status) <= Order(s'.brk.status)
    ensures s.brk.status == s'.brk.status == Draft ==> s'.brk == s.brk
  {
  }

  lemma StepKeepsBreak(sha256: Hash, s: State, s': State)
    requires BreakOk(s) && Step(sha256, s, s')
    ensures BreakOk(s') && Order(s.brk.status) <= Order(s'.brk.status)
  {
    hide NextLink, HashPull, Blocked, Consistent;
    if StatusStep(s, s') { StatusStepKeepsBreak(s, s'); }
    hide StatusStep;
  }

  lemma {:induction false} BreakStaysOk(sha256: Hash, trace: seq<State>, k: nat)
    requires Run(sha256, trace) && k < |trace|
    ensures BreakOk(trace[k])
  {
    hide Step, BreakOk;
    if k == 0 {
      StartsOk(trace[0]);
    } else {
      BreakStaysOk(sha256, trace, k - 1);
      StepKeepsBreak(sha256, trace[k - 1], trace[k]);
    }
  }

  lemma StartsOk(s: State)
    requires Initial(s)
    ensures BreakOk(s)
  {
  }

  lemma BreakIsConsistent(sha256: Hash, trace: seq<State>, k: nat)
    requires Run(sha256, trace) && k < |trace|
    ensures Consistent(trace[k].brk)
  {
    BreakStaysOk(sha256, trace, k);
    hide Run, Consistent;
  }

  /**
   * draft, live, ended, one way: in every interleaving of status changes that read without a lock, a
   * break never goes back, so an ended one is never reopened.
   */
  lemma {:induction false} StatusNeverGoesBack(sha256: Hash, trace: seq<State>, i: nat, j: nat)
    requires Run(sha256, trace) && i <= j < |trace|
    ensures Consistent(trace[j].brk) && Order(trace[i].brk.status) <= Order(trace[j].brk.status)
    decreases j
  {
    hide *;
    BreakIsConsistent(sha256, trace, j);
    if i == j {
    } else {
      StatusNeverGoesBack(sha256, trace, i, j - 1);
      BreakStaysOk(sha256, trace, j - 1);
      RunStep(sha256, trace, j - 1);
      StepKeepsBreak(sha256, trace[j - 1], trace[j]);
    }
  }

  /** It is the check, and not the read before the update, that turns away a late change. */
  lemma LateChangeRefusedIff(s: State, t: Tx, now: int)
    requires BreakOk(s) && t in s.setters
    ensures Consistent(Restamped(s.brk, s.setters[t], now))
            <==> if s.setters[t] == Live then s.brk.status != Ended
                 else s.brk.startedAt.Some? && s.brk.startedAt.value <= now
  {
  }

  // ------------------------------------------------------------------ //
  // When a start or end time can still move
  // ------------------------------------------------------------------ //

  /** Somebody is still to write this status. */
  predicate Pending(s: State, next: BreakStatus) {
    exists t :: t in s.setters && s.setters[t] == next
  }

  /** The time the status `next` stamps. */
  function TimeOf(b: BreakRow, next: BreakStatus): Option<int> {
    if next == Live then b.startedAt else b.endedAt
  }

  /** Transaction t read at step i that it might write `next`, when that time was not yet set, and has held on to it. */
  ghost predicate ReadBeforeSet(trace: seq<State>, i: nat, k: nat, t: Tx, next: BreakStatus) {
    && i < k < |trace| && SetReadStep(trace[i], trace[i + 1], t, next) && TimeOf(trace[i].brk, next) == None
    && forall m :: i < m <= k ==> t in trace[m].setters && trace[m].setters[t] == next
  }

  lemma ReadFindsNoTime(s: State, s': State, t: Tx, next: BreakStatus)
    requires BreakOk(s) && SetReadStep(s, s', t, next)
    ensures TimeOf(s.brk, next) == None
  {
  }

  /** A step that adds or changes a pending setter is its read. */
  lemma PendingSince(sha256: Hash, s: State, s': State, t: Tx)
    requires Step(sha256, s, s') && t in s'.setters && !(t in s.setters && s.setters[t] == s'.setters[t])
    ensures SetReadStep(s, s', t, s'.setters[t])
  {
    hide NextLink, HashPull, Blocked, Consistent, ColumnsTake, ChecksPass, Names, Labelled, MayBecome;
    if u, next :| SetReadStep(s, s', u, next) {
    } else if StatusStep(s, s') {
    }
  }

  lemma {:induction false} EveryPendingWasRead(sha256: Hash, trace: seq<State>, k: nat, t: Tx) returns (i: nat)
    requires Run(sha256, trace) && k < |trace| && t in trace[k].setters
    ensures ReadBeforeSet(trace, i, k, t, trace[k].setters[t])
    decreases k
  {
    hide Step, BreakOk, SetReadStep;
    assert k > 0;
    var s, s' := trace[k - 1], trace[k];
    if t in s.setters && s.setters[t] == s'.setters[t] {
      i := EveryPendingWasRead(sha256, trace, k - 1, t);
    } else {
      i := k - 1;
      PendingSince(sha256, s, s', t);
      BreakStaysOk(sha256, trace, k - 1);
      ReadFindsNoTime(s, s', t, s'.setters[t]);
    }
  }

  /** This step writes that change, with another time. */
  ghost predicate Restamps(s: State, s': State, t: Tx, next: BreakStatus) {
    exists now ::
      t in s.setters && s.setters[t] == next && SetWriteStep(s, s', t, now) && TimeOf(s.brk, next) != Some(now)
  }

  lemma OtherStepsKeepTimes(sha256: Hash, s: State, s': State, next: BreakStatus)
    requires Step(sha256, s, s') && next != Draft && TimeOf(s'.brk, next) != TimeOf(s.brk, next)
    requires forall t :: t in s.setters ==> s.setters[t] != Draft
    ensures exists t :: Restamps(s, s', t, next)
  {
    hide NextLink, HashPull, Blocked, Consistent, ColumnsTake, ChecksPass, Names, Labelled, MayBecome;
    if t, now :| SetWriteStep(s, s', t, now) { assert Restamps(s, s', t, next); }
  }

  /**
   * In every run, a start or end time once set changes at a step exactly when that step writes, with
   * another time, a change whose read came before the time was first set.
   */
  lemma TimeMovesIff(sha256: Hash, trace: seq<State>, k: nat, next: BreakStatus)
    requires Run(sha256, trace) && k + 1 < |trace| && next != Draft && TimeOf(trace[k].brk, next).Some?
    ensures TimeOf(trace[k + 1].brk, next) != TimeOf(trace[k].brk, next)
            <==> exists t, i: nat :: ReadBeforeSet(trace, i, k, t, next) && Restamps(trace[k], trace[k + 1], t, next)
  {
    BreakStaysOk(sha256, trace, k);
    assert Step(sha256, trace[k], trace[k + 1]);
    hide Step, SetReadStep, Consistent;
    if TimeOf(trace[k + 1].brk, next) != TimeOf(trace[k].brk, next) {
      OtherStepsKeepTimes(sha256, trace[k], trace[k + 1], next);
      var t :| Restamps(trace[k], trace[k + 1], t, next);
      var i := EveryPendingWasRead(sha256, trace, k, t);
      assert ReadBeforeSet(trace, i, k, t, next) && Restamps(trace[k], trace[k + 1], t, next);
    }
  }

  /** Once the time is set, nobody new can mean to set it. */
  lemma NoNewSetters(sha256: Hash, s: State, s': State, next: BreakStatus)
    requires BreakOk(s) && Step(sha256, s, s') && next != Draft && TimeOf(s.brk, next).Some?
    ensures Pending(s', next) ==> Pending(s, next)
    ensures TimeOf(s'.brk, next).Some?
    ensures !Pending(s, next) ==> TimeOf(s'.brk, next) == TimeOf(s.brk, next)
  {
    if t :| t in s'.setters && s'.setters[t] == next {
      if !(t in s.setters && s.setters[t] == next) {
        PendingSince(sha256, s, s', t);
        ReadFindsNoTime(s, s', t, next);
      }
    }
    if TimeOf(s'.brk, next) != TimeOf(s.brk, next) {
      hide Step;
      OtherStepsKeepTimes(sha256, s, s', next);
    }
  }

  /** So the time is fixed for good once it is set and nobody is still to write it. */
  lemma {:induction false} TimeIsFixed(sha256: Hash, trace: seq<State>, i: nat, j: nat, next: BreakStatus)
    requires Run(sha256, trace) && i <= j < |trace| && next != Draft
    requires TimeOf(trace[i].brk, next).Some? && !Pending(trace[i], next)
    ensures TimeOf(trace[j].brk, next) == TimeOf(trace[i].brk, next) && !Pending(trace[j], next)
    decreases j
  {
    hide *;
    if i == j {
    } else {
      TimeIsFixed(sha256, trace, i, j - 1, next);
      BreakStaysOk(sha256, trace, j - 1);
      RunStep(sha256, trace, j - 1);
      NoNewSetters(sha256, trace[j - 1], trace[j], next);
    }
  }

  /**
   * Two starts that both read `draft` both go through, and the second moves the start; two ends that
   * both read `live` move the end the same way.
   */
  lemma TimesCanMove(sha256: Hash) returns (trace: seq<State>)
    ensures Run(sha256, trace) && |trace| == 9
    ensures trace[3].brk == BreakRow(Live, Some(5), None) && trace[4].brk == BreakRow(Live, Some(9), None)
    ensures trace[7].brk == BreakRow(Ended, Some(9), Some(20)) && trace[8].brk == BreakRow(Ended, Some(9), Some(30))
  {
    hide Run;
    trace := StartedTwice(sha256);
    trace := StatusIsRead(sha256, trace, 3, Ended);
    trace := StatusIsRead(sha256, trace, 4, Ended);
    trace := StatusIsWritten(sha256, trace, 3, 20);
    trace := StatusIsWritten(sha256, trace, 4, 30);
  }

  lemma StartedTwice(sha256: Hash) returns (trace: seq<State>)
    ensures Run(sha256, trace) && |trace| == 5 && trace[3].brk == BreakRow(Live, Some(5), None)
    ensures trace[4] == FRESH.(brk := BreakRow(Live, Some(9), None))
  {
    trace := StatusIsRead(sha256, [FRESH], 1, Live);
    trace := StatusIsRead(sha256, trace, 2, Live);
    trace := StatusIsWritten(sha256, trace, 1, 5);
    trace := StatusIsWritten(sha256, trace, 2, 9);
    assert trace[2].setters - {1} - {2} == map[];
  }

  // ------------------------------------------------------------------ //
  // The table, one method per step
  // ------------------------------------------------------------------ //

  /** What a caller gives; `published` is what the price index answers for the card. */
  datatype PullInput = PullInput(
    cardVariantId: Option<string>,
    cardLabel: Option<string>,
    valueCentsAtPull: Option<int>,
    published: Option<int>)

  /** A typed value wins; a blank is filled from the index only when the pull names a card. */
  function Valued(input: PullInput): (int, string) {
    match input.valueCentsAtPull
    case Some(v) => (v, "manual")
    case None =>
      if input.cardVariantId.Some? && input.cardVariantId.value != "" then
        (if input.published.Some? then input.published.value else 0, "index")
      else (0, "manual")
  }

  function PullOf(input: PullInput, seqNo: nat, pulledAt: string): Pull {
    Pull(seqNo, input.cardVariantId, input.cardLabel, Valued(input).0, Valued(input).1, pulledAt)
  }

  /**
   * What is logged of a pull: the caller's card and label, and a typed value as theirs; a blank one is
   * the index's, or zero, when a card is named, and otherwise a zero somebody left.
   */
  lemma PullIs(input: PullInput, seqNo: nat, pulledAt: string)
    ensures var p := PullOf(input, seqNo, pulledAt);
            && p.seqNo == seqNo && p.cardVariantId == input.cardVariantId && p.cardLabel == input.cardLabel
            && p.pulledAt == pulledAt
            && (input.valueCentsAtPull.Some? ==>
                  p.valueCentsAtPull == input.valueCentsAtPull.value && p.valueSource == "manual")
            && (input.valueCentsAtPull.None? && (input.cardVariantId.None? || |input.cardVariantId.value| == 0) ==>
                  p.valueCentsAtPull == 0 && p.valueSource == "manual")
            && (input.valueCentsAtPull.None? && input.cardVariantId.Some? && |input.cardVariantId.value| > 0 ==>
                  && p.valueSource == "index"
                  && (input.published.Some? ==> p.valueCentsAtPull == input.published.value)
                  && (input.published.None? ==> p.valueCentsAtPull == 0))
  {
  }

  /** What an insert of this pull answers: the columns first, then the checks, the index and the foreign key. */
  function Refusal(p: Pull, taken: bool, cardExists: bool, gone: set<CardId>): Result<(), LogError> {
    if !ColumnsTake(p) then Err(BadValue)
    else if !ChecksPass(p) then Err(CheckFailed)
    else if taken then Err(Conflict)
    else if p.cardVariantId.Some? && (!cardExists || Stored(p.cardVariantId.value).value in gone) then Err(MissingCard)
    else Ok(())
  }

  /** What can be logged: an amount an integer column holds and a card, or a label that is not blank. */
  ghost predicate Loggable(p: Pull) {
    && 0 <= p.valueCentsAtPull <= 2147483647
    && (|| p.cardVariantId.Some?
        || (p.cardLabel.Some?
            && exists k :: 0 <= k < |p.cardLabel.value| && p.cardLabel.value[k] as int != 32))
    && (p.cardVariantId.Some? ==> ParseUuid(p.cardVariantId.value).Some?)
    && (p.cardLabel.Some? ==> forall k :: 0 <= k < |p.cardLabel.value| ==> p.cardLabel.value[k] as int != 0)
  }

  lemma LoggableIff(p: Pull)
    ensures Loggable(p) <==> ColumnsTake(p) && ChecksPass(p)
  {
    hide ParseUuid, PrintPairs;
  }

  /** An insert goes through exactly for a pull that can be logged, at a free number, of a card that is there. */
  lemma RefusalIff(p: Pull, taken: bool, cardExists: bool, gone: set<CardId>)
    ensures Refusal(p, taken, cardExists, gone).Ok?
            <==> && Loggable(p) && !taken
                 && (p.cardVariantId.Some? ==> cardExists && forall card :: card in gone ==> !Names(p, card))
    ensures Loggable(p) ==>
              (Refusal(p, taken, cardExists, gone) == Err(Conflict) <==> taken)
              && (Refusal(p, taken, cardExists, gone) == Err(MissingCard)
                  <==> !taken && p.cardVariantId.Some?
                       && (!cardExists || exists card :: card in gone && Names(p, card)))
  {
    LoggableIff(p);
    hide Loggable, ChecksPass, ParseUuid, PrintPairs;
    if ColumnsTake(p) && p.cardVariantId.Some? {
      var card := Stored(p.cardVariantId.value).value;
      assert card in gone ==> Names(p, card);
      hide Stored;
    }
  }

  ghost predicate AllLoggable(s: State) {
    && (forall n :: n in s.rows ==> Loggable(s.rows[n].pull))
    && (forall t :: t in s.txs && s.txs[t].Inserted? ==> Loggable(s.txs[t].row.pull))
  }

  lemma StepKeepsLoggable(sha256: Hash, s: State, s': State)
    requires AllLoggable(s) && Step(sha256, s, s')
    ensures AllLoggable(s')
  {
    hide Loggable, NextLink, HashPull, Blocked, Consistent, ColumnsTake, ChecksPass, Names, Labelled, MayBecome;
    if t, p :| InsertStep(sha256, s, s', t, p) { LoggableIff(p); }
  }

  /** In every interleaving, only such pulls are ever logged. */
  lemma {:induction false} EveryLoggedPullIsLoggable(sha256: Hash, trace: seq<State>, k: nat)
    requires Run(sha256, trace) && k < |trace|
    ensures AllLoggable(trace[k])
    decreases k
  {
    if k == 0 {
      assert Initial(trace[0]);
    } else {
      hide *;
      EveryLoggedPullIsLoggable(sha256, trace, k - 1);
      RunStep(sha256, trace, k - 1);
      StepKeepsLoggable(sha256, trace[k - 1], trace[k]);
    }
  }

  lemma SameBreak(s: State, s': State)
    requires BreakOk(s) && s'.brk == s.brk && s'.setters == s.setters
    ensures BreakOk(s')
  {
    hide Consistent;
  }

  lemma RolledBack(s: State, s': State, t: Tx)
    requires t in s.txs && s' == s.(txs := s.txs[t := Finished])
    ensures RollbackStep(s, s', t)
  {
  }

  class PullTable {
    const sha256: Hash
    var brk: BreakRow
    var setters: map<Tx, BreakStatus>
    var rows: map<nat, Row>
    var txs: map<Tx, Phase>
    var gone: set<CardId>

    ghost function View(): State
      reads this
    {
      State(brk, setters, rows, txs, gone)
    }

    ghost predicate Valid()
      reads this
    {
      Inv(sha256, View()) && BreakOk(View())
    }

    constructor (sha256: Hash)
      ensures Valid() && Initial(View()) && this.sha256 == sha256
    {
      this.sha256 := sha256;
      brk, setters, rows, txs, gone := BreakRow(Draft, None, None), map[], map[], map[], {};
    }

    method SetRead(t: Tx, next: BreakStatus) returns (ok: bool)
      requires Valid() && t !in setters && next != Draft
      modifies this`setters
      ensures Valid()
      ensures ok <==> MayBecome(brk.status, next)
      ensures if ok then SetReadStep(old(View()), View(), t, next) else View() == old(View())
    {
      hide Inv;
      ok := if next == Live then brk.status == Draft else brk.status == Live;
      if ok {
        setters := setters[t := next];
        QuietStepKeepsInv(sha256, old(View()), View(), 0, Finished);
      }
    }

    method SetWrite(t: Tx, now: int) returns (ok: bool)
      requires Valid() && t in setters
      modifies this`brk, this`setters
      ensures Valid()
      ensures ok <==> if old(setters)[t] == Live then old(brk).status != Ended else old(brk).startedAt.value <= now
      ensures if ok then SetWriteStep(old(View()), View(), t, now) else SetFailStep(old(View()), View(), t)
    {
      hide Inv;
      LateChangeRefusedIff(View(), t, now);
      var next := setters[t];
      var written := if next == Live
        then brk.(status := Live, startedAt := Some(now)) else brk.(status := Ended, endedAt := Some(now));
      setters := setters - {t};
      ok := Consistent(written);
      if ok { brk := written; }
      assert ok ==> SetWriteStep(old(View()), View(), t, now);
      assert !ok ==> SetFailStep(old(View()), View(), t);
      hide BreakOk, Consistent, Restamped;
      StatusStepKeepsBreak(old(View()), View());
      QuietStepKeepsInv(sha256, old(View()), View(), 0, Finished);
    }

    /** One change with nobody else about: draft to live, or live to ended unless the clock has gone back. */
    method SetStatus(t: Tx, next: BreakStatus, now: int) returns (ok: bool)
      requires Valid() && t !in setters && next != Draft
      modifies this`brk, this`setters
      ensures Valid() && setters == old(setters)
      ensures ok <==> MayBecome(old(brk).status, next) && (next == Ended ==> old(brk).startedAt.value <= now)
      ensures brk == if ok then Restamped(old(brk), next, now) else old(brk)
    {
      ok := SetRead(t, next);
      if ok { ok := SetWrite(t, now); }
    }

    method Begin(t: Tx) returns (r: Result<(), LogError>)
      requires Valid() && t !in txs
      modifies this`txs
      ensures Valid()
      ensures r.Ok? ==> BeginStep(old(View()), View(), t)
      ensures r.Err? ==> View() == old(View())
      ensures r.Err? ==> r.error == NotLive || r.error == LimitReached
      ensures r == Err(NotLive) <==> brk.status != Live
      ensures r == Err(LimitReached) <==> brk.status == Live && |rows| >= MAX_PULLS_PER_BREAK
    {
      if brk.status != Live { return Err(NotLive); }
      if |rows| >= MAX_PULLS_PER_BREAK { return Err(LimitReached); }
      txs := txs[t := Checked];
      QuietStepKeepsInv(sha256, old(View()), View(), t, Checked);
      r := Ok(());
    }

    /** `order by seq desc limit 1`, then the link a missing tip stands for. */
    method ReadTip(t: Tx)
      requires Valid() && t in txs && txs[t] == Checked
      modifies this`txs
      ensures Valid()
      ensures ReadTipStep(old(View()), View(), t)
    {
      var seqNo, prevHash := 1, GENESIS_HASH;
      if rows != map[] {
        var tip := Largest(rows.Keys);
        seqNo, prevHash := tip + 1, rows[tip].rowHash;
      }
      txs := txs[t := HasTip(seqNo, prevHash)];
      assert NextLink(rows, seqNo, prevHash);
      ReadTipKeepsInv(sha256, old(View()), View(), t);
    }

    method DeleteCard(card: CardId) returns (ok: bool)
      requires Valid() && forall t :: t in txs && txs[t].Inserted? ==> !Names(txs[t].row.pull, card)
      modifies this`gone
      ensures Valid()
      ensures ok <==> forall n :: n in rows && Names(rows[n].pull, card) ==> Labelled(rows[n].pull)
      ensures if ok then DeleteCardStep(old(View()), View(), card) else View() == old(View())
    {
      hide Inv, BreakOk;
      ok := forall n :: n in rows && Names(rows[n].pull, card) ==> Labelled(rows[n].pull);
      if ok { gone := gone + {card}; }
      QuietStepKeepsInv(sha256, old(View()), View(), 0, Finished);
      SameBreak(old(View()), View());
    }

    method Insert(t: Tx, input: PullInput, pulledAt: string, cardExists: bool) returns (r: Result<(), LogError>)
      requires Valid() && t in txs && txs[t].HasTip? && !Blocked(View(), t, txs[t].seqNo)
      modifies this`txs
      ensures Valid()
      ensures r.Ok? ==> InsertStep(sha256, old(View()), View(), t, PullOf(input, old(txs)[t].seqNo, pulledAt))
      ensures r.Err? ==> RollbackStep(old(View()), View(), t)
      ensures r == Refusal(PullOf(input, old(txs)[t].seqNo, pulledAt), old(txs)[t].seqNo in rows, cardExists, gone)
    {
      hide Inv, BreakOk, RollbackStep;
      var seqNo, prevHash := txs[t].seqNo, txs[t].prevHash;
      var p := PullOf(input, seqNo, pulledAt);
      var rowHash := HashPull(sha256, prevHash, p);
      r := Ok(());
      if !ColumnsTake(p) {
        r := Err(BadValue);
      } else if !ChecksPass(p) {
        r := Err(CheckFailed);
      } else if seqNo in rows {
        r := Err(Conflict);
      } else if p.cardVariantId.Some? && (!cardExists || Stored(p.cardVariantId.value).value in gone) {
        r := Err(MissingCard);
      }
      txs := txs[t := if r.Err? then Finished else Inserted(Row(p, prevHash, rowHash))];
      hide ColumnsTake, ChecksPass, PullOf, HashPull;
      if r.Err? {
        RolledBack(old(View()), View(), t);
        QuietStepKeepsInv(sha256, old(View()), View(), t, Finished);
      } else {
        InsertKeepsInv(sha256, old(View()), View(), t, p);
      }
      SameBreak(old(View()), View());
    }

    method Commit(t: Tx)
      requires Valid() && t in txs && txs[t].Inserted?
      modifies this`rows, this`txs
      ensures Valid()
      ensures CommitStep(old(View()), View(), t)
    {
      var row := txs[t].row;
      assert PhaseOk(sha256, rows, txs[t]);
      rows := rows[row.pull.seqNo := row];
      txs := txs[t := Finished];
      CommitKeepsInv(sha256, old(View()), View(), t);
    }

    method Rollback(t: Tx)
      requires Valid() && t in txs
      modifies this`txs
      ensures Valid()
      ensures RollbackStep(old(View()), View(), t)
    {
      txs := txs[t := Finished];
      QuietStepKeepsInv(sha256, old(View()), View(), t, Finished);
    }

    /** One call with nobody else about: it appends exactly one row, or says why it did not. */
    method LogPull(t: Tx, input: PullInput, pulledAt: string, cardExists: bool) returns (r: Result<Row, LogError>)
      requires Valid() && t !in txs && forall u :: u in txs ==> !txs[u].Inserted?
      modifies this`rows, this`txs
      ensures Valid()
      ensures Contiguous(old(rows))
      ensures var refusal := Refusal(PullOf(input, |old(rows)| + 1, pulledAt), false, cardExists, gone);
              && (r == Err(NotLive) <==> brk.status != Live)
              && (r == Err(LimitReached) <==> brk.status == Live && |old(rows)| >= 2000)
              && (brk.status == Live && |old(rows)| < 2000 ==>
                    if refusal.Err? then r == Err(refusal.error) else r.Ok?)
      ensures r.Err? ==> rows == old(rows)
      ensures r.Ok? ==>
                && Log(rows) == Log(old(rows)) + [r.value]
                && r.value.pull == PullOf(input, |old(rows)| + 1, pulledAt)
    {
      hide PhaseOk, WellLinked, NextLink, HashPull, PullOf, BreakOk, ColumnsTake, ChecksPass, Names;
      var begun := Begin(t);
      if begun.Err? { return Err(begun.error); }
      label started:
      ReadTip(t);
      ReadTipKeepsInv(sha256, old@started(View()), View(), t);
      assert txs[t].seqNo == |rows| + 1 && txs[t].seqNo !in rows;
      var inserted := Insert(t, input, pulledAt, cardExists);
      if inserted.Err? { return Err(inserted.error); }
      label ready:
      var row := txs[t].row;
      Commit(t);
      CommitAppends(sha256, old@ready(View()), View(), t);
      r := Ok(row);
    }
  }

  method Largest(keys: set<nat>) returns (m: nat)
    requires keys != {}
    ensures m in keys && forall k :: k in keys ==> k <= m
  {
    m :| m in keys;
    var rest := keys - {m};
    while rest != {}
      invariant m in keys && rest <= keys
      invariant forall k :: k in keys ==> k in rest || k <= m
      decreases rest
    {
      var k :| k in rest;
      if k > m { m := k; }
      rest := rest - {k};
    }
  }
}
