/** The built-in memory store: writes, deletions, retention and recall on a table whose
    index is kept by triggers, and the controller's persist step on top of it. */
module MemoryStore {
  import opened Utf8
  import opened FtsQuery
  import opened Timestamps
  import opened MemoryTable
  import opened MemoryScope

  // ---------------------------------------------------------------- histories of writes

  /** What the callers ask of the store, with what SQLite and the clock decide: the rowid
      and uuid of an insert, and which rows the retention subquery returns. */
  datatype Op =
    | OpLearn(rowid: nat, entry: Row, uuid: string, now: string)
    | OpForget(namespace: string, id: string)
    | OpRetain(scopeKey: string, maxEntries: int, newest: set<nat>)
    | OpAge(cutoff: string)

  /** The row Learn writes. */
  function Learned(entry: Row, uuid: string, now: string): Row {
    entry.(id := if entry.id == "" then uuid else entry.id,
           content := Truncated(entry.content, MAX_CONTENT),
           createdAt := if entry.createdAt == "" then now else entry.createdAt)
  }

  predicate Taken(rows: map<nat, Row>, id: string) {
    exists r :: r in rows && rows[r].id == id
  }

  ghost function Doomed(rows: map<nat, Row>, op: Op): set<nat> {
    match op
    case OpLearn(_, _, _, _) => {}
    case OpForget(ns, id) => set r | r in rows && rows[r].id == id && rows[r].namespace == ns
    case OpRetain(scopeKey, _, newest) => ScopeRows(rows, scopeKey) - newest
    case OpAge(cutoff) => set r | r in rows && StrLess(rows[r].createdAt, cutoff)
  }

  ghost function Step(k: Tokenizer, db: Db, op: Op): Db {
    if op.OpLearn? then
      var row := Learned(op.entry, op.uuid, op.now);
      if Taken(db.rows, row.id) || op.rowid in db.rows then db else Inserted(k, db, op.rowid, row)
    else DeletedAll(k, db, Doomed(db.rows, op))
  }

  lemma StepKeeps(k: Tokenizer, db: Db, op: Op)
    requires DbOk(k, db)
    ensures DbOk(k, Step(k, db, op))
  {
    if op.OpLearn? {
      var row := Learned(op.entry, op.uuid, op.now);
      CapFits(op.entry.content);
      if !(Taken(db.rows, row.id) || op.rowid in db.rows) { InsertKeeps(k, db, op.rowid, row); }
    } else {
      DeleteKeeps(k, db, Doomed(db.rows, op));
    }
  }

  lemma CapFits(c: Bytes)
    ensures |Truncated(c, MAX_CONTENT)| <= MAX_CONTENT
  {
  }

  ghost function Replay(k: Tokenizer, ops: seq<Op>): Db {
    if ops == [] then Db(map[], {}) else Step(k, Replay(k, ops[..|ops| - 1]), ops[|ops| - 1])
  }

  lemma {:induction false} ReplayOk(k: Tokenizer, ops: seq<Op>)
    ensures DbOk(k, Replay(k, ops))
  {
    if ops != [] {
      ReplayOk(k, ops[..|ops| - 1]);
      StepKeeps(k, Replay(k, ops[..|ops| - 1]), ops[|ops| - 1]);
    }
  }

  /** After any history of writes and deletions a full-text query selects, through the
      index, exactly the rows that mention one of its terms. */
  lemma SearchAfterAnyHistory(k: Tokenizer, ops: seq<Op>, query: Bytes, r: nat)
    ensures var db := Replay(k, ops);
            Matches(k, db.index, Query(query), r) <==> r in db.rows && Mentions(k, db.rows[r], query)
  {
    ReplayOk(k, ops);
    IndexAgreesWithScan(k, Replay(k, ops), query, r);
  }

  /** Writing to or trimming one scope leaves the rows of every other scope as they are. */
  lemma OtherScopesUntouched(k: Tokenizer, db: Db, op: Op, scopeKey: string)
    requires (op.OpLearn? && op.entry.scopeKey != scopeKey) || (op.OpRetain? && op.scopeKey != scopeKey)
    ensures ScopeRows(Step(k, db, op).rows, scopeKey) == ScopeRows(db.rows, scopeKey)
    ensures forall r :: r in ScopeRows(db.rows, scopeKey) ==> Step(k, db, op).rows[r] == db.rows[r]
  {
  }

  /** What takes a row out of the table. */
  predicate Removes(op: Op, r: nat, row: Row) {
    match op
    case OpLearn(_, _, _, _) => false
    case OpForget(ns, id) => row.id == id && row.namespace == ns
    case OpRetain(scopeKey, _, newest) => row.scopeKey == scopeKey && r !in newest
    case OpAge(cutoff) => StrLess(row.createdAt, cutoff)
  }

  /** A history that writes nothing to a scope adds no row to it, changes none, and leaves a
      row there exactly when none of its operations removes that row. */
  lemma {:induction false} ScopeOnlyLoses(k: Tokenizer, past: seq<Op>, ops: seq<Op>, scopeKey: string, r: nat)
    requires forall op :: op in ops && op.OpLearn? ==> op.entry.scopeKey != scopeKey
    ensures var was, now := Replay(k, past).rows, Replay(k, past + ops).rows;
            && (r in ScopeRows(now, scopeKey) <==>
                 r in ScopeRows(was, scopeKey) && forall op :: op in ops ==> !Removes(op, r, was[r]))
            && (r in ScopeRows(now, scopeKey) ==> now[r] == was[r])
    decreases |ops|
  {
    if ops == [] {
      assert past + ops == past;
    } else {
      var init, last := ops[..|ops| - 1], ops[|ops| - 1];
      ScopeOnlyLoses(k, past, init, scopeKey, r);
      assert (past + ops)[..|past + ops| - 1] == past + init;
      assert ops == init + [last];
      StepOnScope(k, Replay(k, past + init), last, scopeKey, r);
    }
  }

  lemma StepOnScope(k: Tokenizer, db: Db, op: Op, scopeKey: string, r: nat)
    requires op.OpLearn? ==> op.entry.scopeKey != scopeKey
    ensures var now := Step(k, db, op).rows;
            && (r in ScopeRows(now, scopeKey) <==> r in ScopeRows(db.rows, scopeKey) && !Removes(op, r, db.rows[r]))
            && (r in ScopeRows(now, scopeKey) ==> now[r] == db.rows[r])
  {
    hide StrLess;
  }

  /** In particular writes and trims of other scopes never touch a scope's rows. */
  lemma OtherHistoriesHarmless(k: Tokenizer, past: seq<Op>, ops: seq<Op>, scopeKey: string)
    requires forall op :: op in ops ==>
      (op.OpLearn? && op.entry.scopeKey != scopeKey) || (op.OpRetain? && op.scopeKey != scopeKey)
    ensures ScopeRows(Replay(k, past + ops).rows, scopeKey) == ScopeRows(Replay(k, past).rows, scopeKey)
    ensures forall r :: r in ScopeRows(Replay(k, past).rows, scopeKey) ==>
      Replay(k, past + ops).rows[r] == Replay(k, past).rows[r]
  {
    forall r
      ensures r in ScopeRows(Replay(k, past + ops).rows, scopeKey) <==> r in ScopeRows(Replay(k, past).rows, scopeKey)
    {
      ScopeOnlyLoses(k, past, ops, scopeKey, r);
    }
    forall r | r in ScopeRows(Replay(k, past).rows, scopeKey)
      ensures Replay(k, past + ops).rows[r] == Replay(k, past).rows[r]
    {
      ScopeOnlyLoses(k, past, ops, scopeKey, r);
    }
  }

  /** Deleting by age, in terms of times: a row stamped in an earlier second than the cutoff
      is gone, one stamped in a later second stays as it was. */
  lemma AgeDeletesBySecond(k: Tokenizer, db: Db, r: nat, t: Time, cutoff: Time)
    requires r in db.rows && db.rows[r].createdAt == Rfc3339Nano(t) && InRange(t) && InRange(cutoff)
    ensures var now := Step(k, db, OpAge(Rfc3339Nano(cutoff))).rows;
            && (SecondBefore(t, cutoff) ==> r !in now)
            && (SecondBefore(cutoff, t) ==> r in now && now[r] == db.rows[r])
  {
    AgeCutoffExactToTheSecond(t, cutoff);
    hide Rfc3339Nano, StrLess, SecondBefore;
  }

  /** Some write in the history was this row. */
  ghost predicate WasWritten(ops: seq<Op>, row: Row) {
    exists i :: 0 <= i < |ops| && ops[i].OpLearn? && row == Learned(ops[i].entry, ops[i].uuid, ops[i].now)
  }

  lemma {:induction false} RowsWereWritten(k: Tokenizer, ops: seq<Op>, r: nat)
    requires r in Replay(k, ops).rows
    ensures WasWritten(ops, Replay(k, ops).rows[r])
  {
    var init, last := ops[..|ops| - 1], ops[|ops| - 1];
    var before := Replay(k, init);
    if r in before.rows && Replay(k, ops).rows[r] == before.rows[r] {
      RowsWereWritten(k, init, r);
      var i :| 0 <= i < |init| && init[i].OpLearn?
        && before.rows[r] == Learned(init[i].entry, init[i].uuid, init[i].now);
      assert ops[i] == init[i];
    } else {
      assert ops[|ops| - 1] == last;
    }
  }

  /** Everything recalled for an owner was written for the same pool, when all writes carry
      the key of their own owner. */
  lemma RecallStaysInPool(k: Tokenizer, ops: seq<Op>, writers: seq<Owner>, reader: Owner, r: nat)
    requires |writers| == |ops| && Plain(reader) && forall i :: 0 <= i < |ops| ==> Plain(writers[i])
    requires forall i :: 0 <= i < |ops| && ops[i].OpLearn? ==> ops[i].entry.scopeKey == MemoryScopeKey(writers[i])
    requires r in Replay(k, ops).rows && Replay(k, ops).rows[r].scopeKey == MemoryScopeKey(reader)
    ensures exists i :: 0 <= i < |ops| && ops[i].OpLearn? && PoolOf(writers[i]) == PoolOf(reader)
                     && Replay(k, ops).rows[r] == Learned(ops[i].entry, ops[i].uuid, ops[i].now)
  {
    RowsWereWritten(k, ops, r);
    var row := Replay(k, ops).rows[r];
    hide Replay, MemoryScopeKey, Truncated;
    var i :| 0 <= i < |ops| && ops[i].OpLearn? && row == Learned(ops[i].entry, ops[i].uuid, ops[i].now);
    KeyIsPool(writers[i], reader);
  }

  lemma ScopeGrows(rows: map<nat, Row>, r: nat, row: Row)
    requires r !in rows
    ensures |ScopeRows(rows[r := row], row.scopeKey)| == |ScopeRows(rows, row.scopeKey)| + 1
  {
    assert ScopeRows(rows[r := row], row.scopeKey) == ScopeRows(rows, row.scopeKey) + {r};
  }

  lemma RestCount(rows: map<nat, Row>, doomed: set<nat>)
    requires doomed <= rows.Keys
    ensures |rows - doomed| == |rows| - |doomed|
  {
    assert rows.Keys == (rows - doomed).Keys + doomed;
  }

  lemma RowsLeft(k: Tokenizer, db: Db, doomed: set<nat>)
    requires doomed <= db.rows.Keys
    ensures DeletedAll(k, db, doomed).rows == db.rows - doomed
  {
  }

  /** A write followed by a trim of the same scope changes nothing elsewhere. */
  lemma PersistElsewhere(k: Tokenizer, db: Db, learn: Op, retain: Op)
    requires learn.OpLearn? && retain.OpRetain? && learn.entry.scopeKey == retain.scopeKey
    ensures var after := Step(k, Step(k, db, learn), retain).rows;
            && (forall s :: s != retain.scopeKey ==> ScopeRows(after, s) == ScopeRows(db.rows, s))
            && forall r :: r in after && after[r].scopeKey != retain.scopeKey ==> r in db.rows && after[r] == db.rows[r]
  {
    forall s | s != retain.scopeKey
      ensures ScopeRows(Step(k, Step(k, db, learn), retain).rows, s) == ScopeRows(db.rows, s)
    {
      OtherScopesUntouched(k, db, learn, s);
      OtherScopesUntouched(k, Step(k, db, learn), retain, s);
    }
  }

  /** An entry of the recall log: what was recalled, and SQLite's stamp. */
  datatype LogRow = LogRow(memoryIds: seq<string>, createdAt: string)

  // ---------------------------------------------------------------- the store

  class SQLiteStore {
    const k: Tokenizer
    /** LIKE '%term%' of the fallback, by its outcome. */
    const like: (Bytes, Bytes) -> bool
    const ftsEnabled: bool
    var rows: map<nat, Row>
    var index: set<(Bytes, nat)>
    /** Keyed by namespace, run id and step. */
    var recallLog: map<(string, string, string), LogRow>

    constructor (k: Tokenizer, like: (Bytes, Bytes) -> bool, ftsEnabled: bool)
      ensures this.k == k && this.like == like && this.ftsEnabled == ftsEnabled
      ensures Contents() == Replay(k, []) && Valid() && recallLog == map[]
    {
      this.k, this.like, this.ftsEnabled := k, like, ftsEnabled;
      rows, index, recallLog := map[], {}, map[];
    }

    function Contents(): Db
      reads this
    {
      Db(rows, index)
    }

    ghost predicate Valid()
      reads this
    {
      DbOk(k, Contents())
    }

    method Learn(rowid: nat, entry: Row, uuid: string, now: string) returns (ok: bool)
      requires Valid() && rowid !in rows
      modifies this
      ensures Valid() && Contents() == Step(k, old(Contents()), OpLearn(rowid, entry, uuid, now))
      ensures ok <==> !Taken(old(rows), Learned(entry, uuid, now).id)
      ensures ok ==> rows == old(rows)[rowid := Learned(entry, uuid, now)]
      ensures !ok ==> Contents() == old(Contents())
      ensures ok ==>
        rows[rowid] == entry.(
          id := if entry.id != "" then entry.id else uuid, content := Truncated(entry.content, 4096),
          createdAt := if entry.createdAt != "" then entry.createdAt else now)
    {
      StepKeeps(k, Contents(), OpLearn(rowid, entry, uuid, now));
      var e := entry;
      if e.id == "" { e := e.(id := uuid); }
      var content := CapContent(e.content);
      e := e.(content := content);
      if e.createdAt == "" { e := e.(createdAt := now); }
      assert e == Learned(entry, uuid, now);
      if exists r :: r in rows && rows[r].id == e.id { return false; }
      rows := rows[rowid := e];
      index := index + Postings(k, rowid, e.content);
      return true;
    }

    /** DELETE of the rows a WHERE clause selects, with the delete trigger run on each. */
    method DeleteRows(doomed: set<nat>) returns (n: nat)
      requires doomed <= rows.Keys
      modifies this
      ensures Contents() == DeletedAll(k, old(Contents()), doomed) && n == |doomed|
    {
      ghost var db := Contents();
      var rest := doomed;
      n := 0;
      DeleteNone(k, db);
      assert doomed - rest == {};
      while rest != {}
        invariant rest <= doomed && n == |doomed| - |rest|
        invariant Contents() == DeletedAll(k, db, doomed - rest)
        decreases |rest|
      {
        var r :| r in rest;
        DeleteOneMore(k, db, doomed - rest, r);
        assert doomed - (rest - {r}) == doomed - rest + {r};
        index := index - Postings(k, r, rows[r].content);
        rows := rows - {r};
        rest := rest - {r};
        n := n + 1;
      }
      assert doomed - rest == doomed;
    }

    method Forget(namespace: string, id: string)
      requires Valid()
      modifies this
      ensures Valid() && Contents() == Step(k, old(Contents()), OpForget(namespace, id))
    {
      StepKeeps(k, Contents(), OpForget(namespace, id));
      var _ := DeleteRows(set r | r in rows && rows[r].id == id && rows[r].namespace == namespace);
    }

    /** Keep the newest rows of a scope; `newest` is what the subquery returned. */
    method Retain(scopeKey: string, maxEntries: int, newest: set<nat>) returns (evicted: nat)
      requires Valid() && NewestRows(rows, scopeKey, Cap(maxEntries), newest)
      modifies this
      ensures Valid() && Contents() == Step(k, old(Contents()), OpRetain(scopeKey, maxEntries, newest))
      ensures ScopeRows(rows, scopeKey) == newest 
      ensures |newest| == AtMost(|ScopeRows(old(rows), scopeKey)|, if maxEntries > 0 then maxEntries else 500)
      ensures forall a, b :: a in newest && b in old(rows) && b !in newest && old(rows)[b].scopeKey == scopeKey ==>
        !StrLess(old(rows)[a].createdAt, old(rows)[b].createdAt)
      ensures forall r :: r in newest ==> rows[r] == old(rows)[r]
      ensures evicted == |ScopeRows(old(rows), scopeKey)| - |ScopeRows(rows, scopeKey)|
    {
      StepKeeps(k, Contents(), OpRetain(scopeKey, maxEntries, newest));
      ghost var all := ScopeRows(rows, scopeKey);
      evicted := DeleteRows(ScopeRows(rows, scopeKey) - newest);
      assert all == (all - newest) + newest;
      assert ScopeRows(rows, scopeKey) == newest;
    }

    method DeleteOlderThan(cutoff: string) returns (n: nat)
      requires Valid()
      modifies this
      ensures Valid() && Contents() == Step(k, old(Contents()), OpAge(cutoff))
      ensures n == |old(rows)| - |rows|
    {
      hide StrLess;
      StepKeeps(k, Contents(), OpAge(cutoff));
      var doomed := set r | r in rows && StrLess(rows[r].createdAt, cutoff);
      RestCount(rows, doomed);
      assert doomed == Doomed(rows, OpAge(cutoff));
      hide Doomed, DeletedAll, DbOk;
      RowsLeft(k, Contents(), doomed);
      n := DeleteRows(doomed);
    }

    /** The rows a recall ranks: in scope, and for a query with terms matching one of them. */
    ghost function Candidates(namespace: string, scopeKey: string, query: Bytes): set<nat>
      reads this
    {
      set r | r in rows && InScope(rows[r], namespace, scopeKey) &&
        (Terms(query) == []
         || if ftsEnabled then Matches(k, index, JoinOr(Terms(query)), r)
            else exists t :: t in Terms(query) && like(rows[r].content, t))
    }

    /** With the index, those are the rows in scope that mention a term of the query. */
    lemma CandidatesMention(namespace: string, scopeKey: string, query: Bytes, r: nat)
      requires Valid() && ftsEnabled && Terms(query) != []
      ensures r in Candidates(namespace, scopeKey, query)
         <==> r in rows && InScope(rows[r], namespace, scopeKey) && Mentions(k, rows[r], query)
    {
      IndexAgreesWithScan(k, Contents(), query, r);
      assert Query(query) == JoinOr(Terms(query));
    }

    /** Without the index they are the rows in scope that contain one of its terms, and for a
        query without terms all rows in scope. */
    lemma CandidatesOtherwise(namespace: string, scopeKey: string, query: Bytes, r: nat)
      requires !ftsEnabled || Terms(query) == []
      ensures r in Candidates(namespace, scopeKey, query)
         <==> r in rows && rows[r].namespace == namespace && rows[r].scopeKey == scopeKey
              && (Terms(query) == [] || exists t :: t in Terms(query) && like(rows[r].content, t))
    {
      hide Terms;
    }

    /** The rows a dashboard search lists; recent are those its time filter lets through. */
    ghost function SearchRows(namespace: string, agent: string, scopeKey: string, recent: set<nat>,
        text: Bytes): set<nat>
      reads this
    {
      set r | r in rows && r in recent && Passes(rows[r], namespace, agent, scopeKey) &&
        (text == [] || if ftsEnabled then Matches(k, index, Query(text), r) else like(rows[r].content, text))
    }

    /** A search with the index finds the rows that pass its filters and mention a term of its text. */
    lemma SearchMentions(namespace: string, agent: string, scopeKey: string, recent: set<nat>, text: Bytes, r: nat)
      requires Valid() && ftsEnabled && Terms(text) != []
      ensures r in SearchRows(namespace, agent, scopeKey, recent, text)
         <==> r in rows && r in recent && Passes(rows[r], namespace, agent, scopeKey) && Mentions(k, rows[r], text)
    {
      IndexAgreesWithScan(k, Contents(), text, r);
    }

    /** Without the index a search looks for its whole text, and without a text it lists all
        rows that pass. */
    lemma SearchOtherwise(namespace: string, agent: string, scopeKey: string, recent: set<nat>, text: Bytes, r: nat)
      requires !ftsEnabled || text == []
      ensures r in SearchRows(namespace, agent, scopeKey, recent, text)
         <==> r in rows && r in recent && rows[r].namespace == namespace && (agent == "" || rows[r].agent == agent)
              && (scopeKey == "" || rows[r].scopeKey == scopeKey) && (text == [] || like(rows[r].content, text))
    {
      hide Query;
    }

    /** A search lists a hundred rows unless it asks for another number up to five hundred. */
    function SearchLimit(limit: int): nat { if limit <= 0 || limit > 500 then 100 else limit }

    /** The database's answer to a search. */
    ghost predicate SearchAnswers(
        namespace: string, agent: string, scopeKey: string, recent: set<nat>, text: Bytes, limit: int, listed: seq<Row>)
      reads this
    {
      PicksNewest(rows, SearchRows(namespace, agent, scopeKey, recent, text), SearchLimit(limit), listed)
    }

    /** What a search with the index lists passes its filters and mentions a term of its text;
        a row that does and is not listed is no newer than any that is, and is left out only
        because the limit is reached. */
    lemma SearchFinds(
        namespace: string, agent: string, scopeKey: string, recent: set<nat>, text: Bytes, limit: int,
          listed: seq<Row>, r: nat)
      requires Valid() && ftsEnabled && Terms(text) != [] && r in rows
      requires SearchAnswers(namespace, agent, scopeKey, recent, text, limit, listed)
      ensures var hit := r in recent && Passes(rows[r], namespace, agent, scopeKey) && Mentions(k, rows[r], text);
              && (rows[r] in listed ==> hit)
              && (hit && rows[r] !in listed ==>
                   |listed| == (if 0 < limit <= 500 then limit else 100)
                   && forall row :: row in listed ==> !StrLess(row.createdAt, rows[r].createdAt))
    {
      SearchMentions(namespace, agent, scopeKey, recent, text, r);
      var some := SearchRows(namespace, agent, scopeKey, recent, text);
      hide SearchRows, StrLess;
      if rows[r] in listed {
        assert OneOf(rows, some, rows[r]);
        var x :| x in some && x in rows && rows[x] == rows[r];
        assert x == r;
      } else if r in some && |listed| < SearchLimit(limit) {
        PicksAll(rows, some, SearchLimit(limit), listed, r);
      }
    }

    lemma SearchAnswersExist(
        namespace: string, agent: string, scopeKey: string, recent: set<nat>, text: Bytes, limit: int)
      returns (listed: seq<Row>)
      requires Valid()
      ensures SearchAnswers(namespace, agent, scopeKey, recent, text, limit, listed)
    {
      var some := SearchRows(namespace, agent, scopeKey, recent, text);
      assert some <= rows.Keys;
      hide SearchRows;
      listed := ListNewest(rows, some, SearchLimit(limit));
    }

    /** The recall ranks by the index; otherwise it takes the newest. */
    predicate RanksByIndex(query: Bytes) { ftsEnabled && Terms(query) != [] }

    /** The database's answer: fifty of the candidates, or all there are, each once, in whatever
        order the index ranks them, and otherwise the newest first. */
    ghost predicate Answers(namespace: string, scopeKey: string, query: Bytes, ranked: seq<Row>)
      reads this
    {
      var some := Candidates(namespace, scopeKey, query);
      if RanksByIndex(query) then Picks(rows, some, 50, ranked) else PicksNewest(rows, some, 50, ranked)
    }

    /** Pack the ranked rows under the budget of four bytes a token. */
    method Recall(namespace: string, scopeKey: string, query: Bytes, maxTokens: int, ranked: seq<Row>)
      returns (out: seq<Row>)
      requires Valid() && Answers(namespace, scopeKey, query, ranked)
      ensures var budget := 4 * if maxTokens <= 0 then 2048 else maxTokens;
              Packed(ranked, budget, out) && |out| <= 50 && Size(out) <= if budget > 4096 then budget else 4096
      ensures forall row :: row in out ==>
        row.namespace == namespace && row.scopeKey == scopeKey
        && OneOf(rows, Candidates(namespace, scopeKey, query), row)
      ensures out == [] <==> Candidates(namespace, scopeKey, query) == {}
      ensures forall i, j :: 0 <= i < j < |out| ==> out[i] != out[j]
      ensures !ftsEnabled || Terms(query) == [] ==> NoneNewer(rows, Candidates(namespace, scopeKey, query), out)
    {
      var tokens := if maxTokens <= 0 then 2048 else maxTokens;
      var budget := tokens * 4;
      out := Pack(ranked, budget);
      hide Candidates;
      ghost var some := Candidates(namespace, scopeKey, query);
      AnswersFacts(namespace, scopeKey, query, ranked);
      PackedSize(k, Contents(), ranked, budget, out);
      PackedMembers(ranked, budget, out);
      assert out <= ranked;
      hide Answers, DbOk, Packed, Size, OneOf, NoneNewer, PicksNewest;
      if !RanksByIndex(query) { PrefixNewest(rows, some, 50, ranked, out); }
    }

    /** The database always has an answer. */
    lemma AnswersExist(namespace: string, scopeKey: string, query: Bytes) returns (ranked: seq<Row>)
      requires Valid()
      ensures Answers(namespace, scopeKey, query, ranked)
    {
      var some := Candidates(namespace, scopeKey, query);
      assert some <= rows.Keys;
      hide Candidates;
      ranked := ListNewest(rows, some, 50);
    }

    lemma AnswersFacts(namespace: string, scopeKey: string, query: Bytes, ranked: seq<Row>)
      requires Answers(namespace, scopeKey, query, ranked)
      ensures var some := Candidates(namespace, scopeKey, query);
              && (forall row :: row in ranked ==>
                   OneOf(rows, some, row) && row in rows.Values && InScope(row, namespace, scopeKey))
              && (ranked == [] <==> some == {})
              && (forall i, j :: 0 <= i < j < |ranked| ==> ranked[i] != ranked[j])
              && |ranked| <= 50
              && (!RanksByIndex(query) ==> PicksNewest(rows, some, 50, ranked))
    {
      hide Terms, Matches;
    }

    /** The packing loop. */
    method Pack(ranked: seq<Row>, budget: int) returns (out: seq<Row>)
      ensures Packed(ranked, budget, out)
    {
      assert Size([]) == 0;
      hide Size;
      out := [];
      var used := 0;
      var i := 0;
      while i < |ranked|
        invariant i <= |ranked| && out == ranked[..i] && used == Size(out)
        invariant i > 1 ==> used <= budget
      {
        var e := ranked[i];
        SizeSnoc(out, e);
        assert ranked[..i + 1] == out + [e];
        if used + |e.content| > budget && |out| > 0 { break; }
        out := out + [e];
        used := used + |e.content|;
        i := i + 1;
      }
      forall j | |out| < j <= |ranked| ensures Size(ranked[..j]) > budget {
        assert i < |ranked|;
        SizeMonotone(ranked[..j], i + 1);
        assert ranked[..j][..i + 1] == ranked[..i + 1];
      }
    }

    /** The controller's persist step: one write to the owner's pool, then the retention cap.
        When the write succeeds the pool holds at most the cap, and no other pool changed. */
    method PersistMemory(owner: Owner, rowid: nat, entry: Row, uuid: string, now: string, cap: int, newest: set<nat>)
      returns (ok: bool, evicted: nat)
      requires Valid() && rowid !in rows && entry.scopeKey == MemoryScopeKey(owner)
      requires NewestRows(rows[rowid := Learned(entry, uuid, now)], entry.scopeKey, Cap(cap), newest)
      modifies this
      ensures Valid()
      ensures ok <==> !Taken(old(rows), Learned(entry, uuid, now).id)
      ensures !ok ==> Contents() == old(Contents())
      ensures ok ==>
        var learned := Step(k, old(Contents()), OpLearn(rowid, entry, uuid, now));
        Contents() == Step(k, learned, OpRetain(entry.scopeKey, cap, newest))
      ensures ok ==> ScopeRows(rows, entry.scopeKey) == newest 
      ensures ok ==> |newest| == AtMost(|ScopeRows(old(rows), entry.scopeKey)| + 1, if cap > 0 then cap else 500)
      ensures evicted == if ok then |ScopeRows(old(rows), entry.scopeKey)| + 1 - |newest| else 0
      ensures ok ==> forall r :: r in newest ==> rows[r] == old(rows)[rowid := Learned(entry, uuid, now)][r]
      ensures forall s :: s != entry.scopeKey ==> ScopeRows(rows, s) == ScopeRows(old(rows), s)
      ensures forall r :: r in rows && rows[r].scopeKey != entry.scopeKey ==> r in old(rows) && rows[r] == old(rows)[r]
    {
      hide Step, DbOk, Truncated, Taken, MemoryScopeKey;
      ghost var db := Contents();
      ghost var learn, retain := OpLearn(rowid, entry, uuid, now), OpRetain(entry.scopeKey, cap, newest);
      PersistElsewhere(k, db, learn, retain);
      evicted := 0;
      ok := Learn(rowid, entry, uuid, now);
      if ok {
        ScopeGrows(old(rows), rowid, Learned(entry, uuid, now));
        hide Learned, ScopeRows;
        evicted := Retain(entry.scopeKey, cap, newest);
      }
    }

    /** Last write wins; the stamp is the database's clock. */
    method WriteRecallLog(namespace: string, runId: string, step: string, memoryIds: seq<string>, now: Time)
      modifies this`recallLog
      ensures recallLog == old(recallLog)[(namespace, runId, step) := LogRow(memoryIds, CurrentTimestamp(now))]
    {
      recallLog := recallLog[(namespace, runId, step) := LogRow(memoryIds, CurrentTimestamp(now))];
    }

    /** Pruning removes exactly the entries stamped on or before the cutoff's day, and counts them. */
    method DeleteRecallLogOlderThan(cutoff: Time) returns (n: nat)
      requires InRange(cutoff)
      modifies this`recallLog
      ensures n == |old(recallLog)| - |recallLog|
      ensures forall key :: key in recallLog ==> key in old(recallLog) && recallLog[key] == old(recallLog)[key]
      ensures forall key, t ::
        key in old(recallLog) && InRange(t) && old(recallLog)[key].createdAt == CurrentTimestamp(t) ==>
        (key in recallLog <==> DateBefore(cutoff, t))
    {
      var bound := Rfc3339Nano(cutoff);
      var doomed := set key | key in recallLog && StrLess(recallLog[key].createdAt, bound);
      ghost var was := recallLog;
      assert was.Keys == (was.Keys - doomed) + doomed;
      recallLog := recallLog - doomed;
      n := |doomed|;
      assert recallLog.Keys == was.Keys - doomed;
      forall key, t | key in was && InRange(t) && was[key].createdAt == CurrentTimestamp(t)
        ensures key in recallLog <==> DateBefore(cutoff, t)
      {
        RecallLogCutoffIsDayGranular(t, cutoff);
        hide Rfc3339Nano, CurrentTimestamp, StrLess;
      }
    }
  }
}
