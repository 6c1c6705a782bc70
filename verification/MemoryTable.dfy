/** The memory table and its full-text index as values: what inserting and deleting rows
    does to both once the triggers have run, and which rows a query selects. */
module MemoryTable {
  import opened Utf8
  import opened FtsQuery
  import opened Timestamps

  datatype Row = Row(
    id: string, namespace: string, scopeKey: string, agent: string, workflow: string, step: string,
    content: Bytes, createdAt: string)

  /** What the index knows is which token occurs in which row. */
  datatype Db = Db(rows: map<nat, Row>, index: set<(Bytes, nat)>)

  /** The tokenizer: the tokens of a text, and the token a bare query term stands for. */
  datatype Tokenizer = Tokenizer(tokens: Bytes -> set<Bytes>, fold: Bytes -> Bytes)

  function Postings(k: Tokenizer, r: nat, content: Bytes): set<(Bytes, nat)> {
    set t | t in k.tokens(content) :: (t, r)
  }

  /** Trigger memories_ai included. */
  function Inserted(k: Tokenizer, db: Db, r: nat, row: Row): Db {
    Db(db.rows[r := row], db.index + Postings(k, r, row.content))
  }

  /** Trigger memories_ad included: it withdraws the tokens of the old content. */
  function Deleted(k: Tokenizer, db: Db, r: nat): Db
    requires r in db.rows
  {
    Db(db.rows - {r}, db.index - Postings(k, r, db.rows[r].content))
  }

  /** Delete a set of rows, one after the other. */
  ghost function DeletedAll(k: Tokenizer, db: Db, doomed: set<nat>): Db
    requires doomed <= db.rows.Keys
  {
    Db(db.rows - doomed, db.index - set r, t | r in doomed && t in k.tokens(db.rows[r].content) :: (t, r))
  }

  // ---------------------------------------------------------------- the invariant

  ghost predicate Indexed(k: Tokenizer, db: Db, t: Bytes, r: nat) {
    (t, r) in db.index <==> r in db.rows && t in k.tokens(db.rows[r].content)
  }

  /** The index holds exactly the tokens of the current rows. */
  ghost predicate IndexExact(k: Tokenizer, db: Db) {
    forall t, r :: Indexed(k, db, t, r)
  }

  ghost predicate DbOk(k: Tokenizer, db: Db) {
    && IndexExact(k, db)
    && (forall r :: r in db.rows ==> |db.rows[r].content| <= MAX_CONTENT)
    && (forall r, s :: r in db.rows && s in db.rows && db.rows[r].id == db.rows[s].id ==> r == s)
  }

  lemma InsertKeeps(k: Tokenizer, db: Db, r: nat, row: Row)
    requires DbOk(k, db) && r !in db.rows && |row.content| <= MAX_CONTENT
    requires forall s :: s in db.rows ==> db.rows[s].id != row.id
    ensures DbOk(k, Inserted(k, db, r, row))
  {
    forall t, s ensures Indexed(k, Inserted(k, db, r, row), t, s) {
      assert Indexed(k, db, t, s);
    }
  }

  lemma DeleteKeeps(k: Tokenizer, db: Db, doomed: set<nat>)
    requires DbOk(k, db) && doomed <= db.rows.Keys
    ensures DbOk(k, DeletedAll(k, db, doomed))
  {
    var db' := DeletedAll(k, db, doomed);
    forall t, s ensures Indexed(k, db', t, s) {
      assert Indexed(k, db, t, s);
    }
  }

  lemma DeleteNone(k: Tokenizer, db: Db)
    ensures DeletedAll(k, db, {}) == db
  {
    var gone := DeletedAll(k, db, {});
    assert gone.rows == db.rows;
    forall p ensures p in gone.index <==> p in db.index {
    }
  }

  /** Deleting rows one at a time, in any order, comes to deleting them together. */
  lemma DeleteOneMore(k: Tokenizer, db: Db, doomed: set<nat>, r: nat)
    requires doomed <= db.rows.Keys && r in db.rows && r !in doomed
    ensures Deleted(k, DeletedAll(k, db, doomed), r) == DeletedAll(k, db, doomed + {r})
  {
    var a, b := Deleted(k, DeletedAll(k, db, doomed), r), DeletedAll(k, db, doomed + {r});
    assert a.rows == b.rows;
    forall p ensures p in a.index <==> p in b.index {
    }
  }

  // ---------------------------------------------------------------- selecting rows

  predicate InScope(row: Row, ns: string, scopeKey: string) {
    row.namespace == ns && row.scopeKey == scopeKey
  }

  /** The optional filters of Search; the time filter is given by its outcome. */
  predicate Passes(row: Row, ns: string, agent: string, scopeKey: string) {
    row.namespace == ns && (agent == "" || row.agent == agent) && (scopeKey == "" || row.scopeKey == scopeKey)
  }

  /** MATCH: rows the index lists under one of the OR-joined terms. */
  ghost predicate Matches(k: Tokenizer, index: set<(Bytes, nat)>, match_: Bytes, r: nat) {
    exists t :: t in Terms(match_) && (k.fold(t), r) in index
  }

  /** The same by reading the rows. */
  ghost predicate Mentions(k: Tokenizer, row: Row, query: Bytes) {
    exists t :: t in Terms(query) && k.fold(t) in k.tokens(row.content)
  }

  /** Searching through the index selects the rows a scan of the table would: the rows
      mentioning a term of the text as the user wrote it. */
  lemma IndexAgreesWithScan(k: Tokenizer, db: Db, query: Bytes, r: nat)
    requires IndexExact(k, db)
    ensures Matches(k, db.index, Query(query), r) <==> r in db.rows && Mentions(k, db.rows[r], query)
  {
    SanitiseRoundTrip(query);
    hide Terms, Query;
    if Matches(k, db.index, Query(query), r) {
      var t :| t in Terms(Query(query)) && (k.fold(t), r) in db.index;
      assert Indexed(k, db, k.fold(t), r);
    }
    if r in db.rows && Mentions(k, db.rows[r], query) {
      var t :| t in Terms(query) && k.fold(t) in k.tokens(db.rows[r].content);
      assert Indexed(k, db, k.fold(t), r);
    }
  }

  // ---------------------------------------------------------------- retention

  function ScopeRows(rows: map<nat, Row>, scopeKey: string): set<nat> {
    set r | r in rows && rows[r].scopeKey == scopeKey
  }

  function Cap(maxEntries: int): nat { if maxEntries <= 0 then 500 else maxEntries }

  /** An answer to `SELECT id ... ORDER BY created_at DESC LIMIT n` on one scope: as many
      rows as allowed, and none left out is newer, by timestamp string, than one taken. */
  ghost predicate NewestRows(rows: map<nat, Row>, scopeKey: string, n: nat, newest: set<nat>) {
    var all := ScopeRows(rows, scopeKey);
    && newest <= all
    && |newest| == (if |all| <= n then |all| else n)
    && forall a, b :: a in newest && b in all - newest ==> !StrLess(rows[a].createdAt, rows[b].createdAt)
  }

  lemma {:induction false} LessTotal(a: string, b: string)
    ensures StrLess(a, b) || a == b || StrLess(b, a)
  {
    if a != "" && b != "" && a[0] == b[0] {
      LessTotal(a[1..], b[1..]);
      assert a == [a[0]] + a[1..] && b == [b[0]] + b[1..];
    }
  }

  lemma {:induction false} LessTransitive(a: string, b: string, c: string)
    requires StrLess(a, b) && StrLess(b, c)
    ensures StrLess(a, c)
  {
    if a != "" && a[0] == b[0] == c[0] { LessTransitive(a[1..], b[1..], c[1..]); }
  }

  lemma {:induction false} SomeNewest(rows: map<nat, Row>, s: set<nat>) returns (m: nat)
    requires s != {} && s <= rows.Keys
    ensures m in s && forall x :: x in s ==> !StrLess(rows[m].createdAt, rows[x].createdAt)
    decreases |s|
  {
    var x :| x in s;
    if s == {x} {
      m := x;
      Irreflexive(rows[m].createdAt);
    } else {
      m := SomeNewest(rows, s - {x});
      if StrLess(rows[m].createdAt, rows[x].createdAt) {
        forall y | y in s ensures !StrLess(rows[x].createdAt, rows[y].createdAt) {
          if y == x {
            Irreflexive(rows[x].createdAt);
          } else if StrLess(rows[x].createdAt, rows[y].createdAt) {
            LessTransitive(rows[m].createdAt, rows[x].createdAt, rows[y].createdAt);
          }
        }
        m := x;
      }
    }
  }

  /** The database always has an answer. */
  lemma {:induction false} NewestExist(rows: map<nat, Row>, scopeKey: string, n: nat) returns (newest: set<nat>)
    ensures NewestRows(rows, scopeKey, n, newest)
    decreases n
  {
    var all := ScopeRows(rows, scopeKey);
    if n == 0 || all == {} {
      newest := {};
    } else {
      newest := NewestExist(rows, scopeKey, n - 1);
      var rest := all - newest;
      if rest != {} {
        var m := SomeNewest(rows, rest);
        assert all == newest + rest;
        newest := newest + {m};
      } else {
        assert newest == all;
      }
    }
  }

  // ---------------------------------------------------------------- answers to queries

  function AtMost(n: nat, limit: nat): nat { if n <= limit then n else limit }

  ghost predicate OneOf(rows: map<nat, Row>, some: set<nat>, row: Row) {
    exists r :: r in some && r in rows && rows[r] == row
  }

  /** `SELECT ... LIMIT n`: n of the rows, or all there are, each once. */
  ghost predicate Picks(rows: map<nat, Row>, some: set<nat>, n: nat, listed: seq<Row>) {
    && |listed| == AtMost(|some|, n)
    && (forall i, j :: 0 <= i < j < |listed| ==> listed[i] != listed[j])
    && forall row :: row in listed ==> OneOf(rows, some, row)
  }

  /** `ORDER BY created_at DESC LIMIT n`: newest first, by timestamp string, and none left out
      is newer than one listed. */
  ghost predicate PicksNewest(rows: map<nat, Row>, some: set<nat>, n: nat, listed: seq<Row>) {
    && Picks(rows, some, n, listed)
    && (forall i, j :: 0 <= i < j < |listed| ==> !StrLess(listed[i].createdAt, listed[j].createdAt))
    && NoneNewer(rows, some, listed)
  }

  ghost predicate NoneNewer(rows: map<nat, Row>, some: set<nat>, listed: seq<Row>) {
    forall r, row :: r in some && r in rows && rows[r] !in listed && row in listed ==>
      !StrLess(row.createdAt, rows[r].createdAt)
  }

  ghost predicate Injective(rows: map<nat, Row>, some: set<nat>) {
    some <= rows.Keys && forall a, b :: a in some && b in some && rows[a] == rows[b] ==> a == b
  }

  /** Such an answer always exists. */
  lemma {:induction false} ListNewest(rows: map<nat, Row>, some: set<nat>, n: nat) returns (listed: seq<Row>)
    requires Injective(rows, some)
    ensures PicksNewest(rows, some, n, listed)
    decreases n
  {
    if n == 0 || some == {} { return []; }
    var m := SomeNewest(rows, some);
    var rest := ListNewest(rows, some - {m}, n - 1);
    listed := [rows[m]] + rest;
    NewestCons(rows, some, n, m, rest);
  }

  lemma NewestCons(rows: map<nat, Row>, some: set<nat>, n: nat, m: nat, rest: seq<Row>)
    requires Injective(rows, some) && n > 0 && m in some && PicksNewest(rows, some - {m}, n - 1, rest)
    requires forall x :: x in some ==> !StrLess(rows[m].createdAt, rows[x].createdAt)
    ensures PicksNewest(rows, some, n, [rows[m]] + rest)
  {
    hide StrLess;
    var listed := [rows[m]] + rest;
    forall row | row in rest ensures row != rows[m] && OneOf(rows, some, row) {
      var r :| r in some - {m} && rows[r] == row;
    }
    assert OneOf(rows, some, rows[m]);
    forall i | 0 < i < |listed| ensures listed[i] in rest && !StrLess(rows[m].createdAt, listed[i].createdAt) {
      var r :| r in some - {m} && rows[r] == listed[i];
    }
  }

  /** The rows behind a list of distinct rows. */
  lemma {:induction false} RowsBehind(rows: map<nat, Row>, some: set<nat>, listed: seq<Row>) returns (behind: set<nat>)
    requires forall i, j :: 0 <= i < j < |listed| ==> listed[i] != listed[j]
    requires forall row :: row in listed ==> OneOf(rows, some, row)
    ensures behind <= some && |behind| == |listed| && forall r :: r in behind ==> r in rows && rows[r] in listed
  {
    if listed == [] { return {}; }
    var rest := RowsBehind(rows, some, listed[1..]);
    assert listed[0] in listed;
    var r :| r in some && r in rows && rows[r] == listed[0];
    behind := rest + {r};
  }

  /** A limit that is not reached leaves nothing out. */
  lemma PicksAll(rows: map<nat, Row>, some: set<nat>, n: nat, listed: seq<Row>, r: nat)
    requires Picks(rows, some, n, listed) && |listed| < n && r in some
    ensures r in rows && rows[r] in listed
  {
    var behind := RowsBehind(rows, some, listed);
    assert some == behind + (some - behind);
    assert |some - behind| == 0;
  }

  /** A prefix of a newest-first answer is newest first, too. */
  lemma PrefixNewest(rows: map<nat, Row>, some: set<nat>, n: nat, listed: seq<Row>, out: seq<Row>)
    requires PicksNewest(rows, some, n, listed) && out <= listed
    ensures NoneNewer(rows, some, out)
  {
    hide StrLess;
    forall r, row | r in some && r in rows && rows[r] !in out && row in out
      ensures !StrLess(row.createdAt, rows[r].createdAt)
    {
      var i :| 0 <= i < |out| && out[i] == row;
      assert listed[i] == row;
      if rows[r] in listed {
        var j :| 0 <= j < |listed| && listed[j] == rows[r];
        assert j < |out| ==> out[j] == rows[r];
      }
    }
  }

  // ---------------------------------------------------------------- packing under a budget

  function Size(rows: seq<Row>): nat {
    if rows == [] then 0 else Size(rows[..|rows| - 1]) + |rows[|rows| - 1].content|
  }

  lemma SizeSnoc(rows: seq<Row>, row: Row)
    ensures Size(rows + [row]) == Size(rows) + |row.content|
  {
    assert (rows + [row])[..|rows + [row]| - 1] == rows;
  }

  lemma {:induction false} SizeMonotone(rows: seq<Row>, k: nat)
    requires k <= |rows|
    ensures Size(rows[..k]) <= Size(rows)
    decreases |rows|
  {
    if k < |rows| {
      var init := rows[..|rows| - 1];
      SizeMonotone(init, k);
      assert init[..k] == rows[..k];
    } else {
      assert rows[..k] == rows;
    }
  }

  /** out is the longest non-empty prefix of ranked that fits the budget, or the first row alone. */
  ghost predicate Packed(ranked: seq<Row>, budget: int, out: seq<Row>) {
    && out <= ranked
    && (ranked != [] ==> out != [])
    && (|out| > 1 ==> Size(out) <= budget)
    && forall k :: |out| < k <= |ranked| ==> Size(ranked[..k]) > budget
  }

  lemma PackedMembers(ranked: seq<Row>, budget: int, out: seq<Row>)
    requires Packed(ranked, budget, out)
    ensures forall row :: row in out ==> row in ranked
    ensures out == [] <==> ranked == []
    ensures (forall i, j :: 0 <= i < j < |ranked| ==> ranked[i] != ranked[j]) ==>
            forall i, j :: 0 <= i < j < |out| ==> out[i] != out[j]
  {
  }

  /** Packed rows exceed the budget only if the best row alone does, and no row exceeds the content cap. */
  lemma PackedSize(k: Tokenizer, db: Db, ranked: seq<Row>, budget: int, out: seq<Row>)
    requires DbOk(k, db) && Packed(ranked, budget, out)
    requires forall row :: row in ranked ==> row in db.rows.Values
    ensures Size(out) <= if budget > MAX_CONTENT then budget else MAX_CONTENT
  {
    if |out| == 1 {
      assert out[0] in ranked;
      SizeSnoc([], out[0]);
      assert out == [] + [out[0]];
    }
  }
}
