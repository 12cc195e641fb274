/** The tabular Q-learning baseline: a table from rounded state keys to one
    value per action, filled lazily and updated one cell at a time. */
module DqnAgent {
  import opened Wrappers
  import opened Actions

  /** The constructor's default learning rate and discount factor. */
  const DefaultLr: real := 0.1
  const DefaultGamma: real := 0.95

  /** A state vector after `_key` has rounded it. */
  type StateKey = seq<real>

  /** The exceptions the agent's operations can raise. */
  datatype DqnError =
    | EmptyActionSpace        // no action to choose from (`randint(0, -1)`, `argmax` of an empty row)
    | ActionIndexOutOfRange   // an index past the end of the catalogue or of a row
    | UnknownStateKey         // `q_table[s]` for a state never seen

  /** An action and its catalogue index. */
  datatype Choice = Choice(action: Action, index: nat)

  /** `np.zeros(n)` */
  function Zeros(n: nat): (z: seq<real>)
    ensures |z| == n && forall i :: 0 <= i < n ==> z[i] == 0.0
  {
    seq(n, _ => 0.0)
  }

  /** `np.max(row)`: the largest entry. */
  function MaxOf(row: seq<real>): (m: real)
    requires row != []
    ensures m in row
    ensures forall i :: 0 <= i < |row| ==> row[i] <= m
  {
    if |row| == 1 then row[0]
    else
      var rest := MaxOf(row[1..]);
      if row[0] >= rest then row[0] else rest
  }

  /** `np.argmax(row)`: the lowest index holding the largest entry. */
  function ArgMax(row: seq<real>): (i: nat)
    requires row != []
    ensures i < |row|
    ensures forall j :: 0 <= j < |row| ==> row[j] <= row[i]
    ensures forall j :: 0 <= j < i ==> row[j] < row[i]
  {
    if |row| == 1 || row[0] >= MaxOf(row[1..]) then 0
    else 1 + ArgMax(row[1..])
  }

  /** Indexing a numpy row of length `dim`: a negative index counts from the
      end, anything else outside the row is an error. */
  function CellIndex(a: int, dim: nat): (c: Option<nat>)
    ensures c.Some? ==> c.value < dim
    ensures c.Some? <==> -(dim as int) <= a < dim
    ensures a >= 0 && c.Some? ==> c.value == a
    ensures a < 0 && c.Some? ==> c.value == dim + a
  {
    if 0 <= a < dim then Some(a)
    else if -(dim as int) <= a < 0 then Some((dim + a) as nat)
    else None
  }

  /** The Q-learning target step: `q + lr * (reward + gamma * next - q)`. */
  function Bellman(q: real, reward: real, next: real, lr: real, gamma: real): (v: real)
    ensures lr == 0.0 ==> v == q
    ensures lr == 1.0 ==> v == reward + gamma * next
    ensures q == reward + gamma * next ==> v == q
    ensures 0.0 <= lr <= 1.0 && q <= reward + gamma * next ==> q <= v <= reward + gamma * next
    ensures 0.0 <= lr <= 1.0 && reward + gamma * next <= q ==> reward + gamma * next <= v <= q
  {
    var target := reward + gamma * next;
    var d := target - q;
    assert 0.0 <= lr <= 1.0 && d >= 0.0 ==> 0.0 <= lr * d <= d;
    assert 0.0 <= lr <= 1.0 && d <= 0.0 ==> d <= lr * d <= 0.0;
    q + lr * d
  }

  /** With the constructor's default rates a value strictly between itself
      and a different target moves a tenth of the way, so it ends strictly
      between the two. */
  lemma DefaultRatesMoveStrictlyTowardTarget(q: real, reward: real, next: real)
    ensures var target := reward + DefaultGamma * next;
            var v := Bellman(q, reward, next, DefaultLr, DefaultGamma);
            && (q < target ==> q < v < target)
            && (target < q ==> target < v < q)
  {
  }

  /** Every row of the table has one entry per action. */
  predicate RowsHaveLength(table: map<StateKey, seq<real>>, dim: nat) {
    forall k :: k in table ==> |table[k]| == dim
  }

  /** The table after making sure `key` has a row: an unseen key gets a row
      of zeros, a known one is left alone. */
  function WithRow(table: map<StateKey, seq<real>>, key: StateKey, dim: nat): (t: map<StateKey, seq<real>>)
    requires RowsHaveLength(table, dim)
    ensures RowsHaveLength(t, dim)
    ensures t.Keys == table.Keys + {key}
    ensures forall k :: k in table ==> t[k] == table[k]
    ensures key !in table ==> t[key] == Zeros(dim)
  {
    if key in table then table else table[key := Zeros(dim)]
  }

  /** The one-step update of `update(state, action_idx, reward, next_state)`
      on the table, for state key `s` and next-state key `ns`: the next state
      gets a row if it has none, then exactly one cell of `s`'s row moves
      towards `reward + gamma * max(next row)`. */
  function Learn(table: map<StateKey, seq<real>>, dim: nat, lr: real, gamma: real,
                 s: StateKey, a: int, reward: real, ns: StateKey): (r: Result<map<StateKey, seq<real>>, DqnError>)
    requires RowsHaveLength(table, dim)
    ensures var t := WithRow(table, ns, dim);
            r.Failure? <==> s !in t || CellIndex(a, dim).None?
  {
    var t := WithRow(table, ns, dim);
    var cell := CellIndex(a, dim);
    if s !in t then Failure(UnknownStateKey)
    else if cell.None? then Failure(ActionIndexOutOfRange)
    else
      var j := cell.value;
      var qOld := t[s][j];
      var qNext := MaxOf(t[ns]);
      Success(t[s := t[s][j := Bellman(qOld, reward, qNext, lr, gamma)]])
  }

  /** A successful update keeps every row's length, adds only the next
      state's key, and changes exactly one cell: the chosen action's value
      in the current state's row moves by `lr` times the temporal-difference
      error `reward + gamma * max(next row) - old value`. */
  lemma LearnChangesOneCell(table: map<StateKey, seq<real>>, dim: nat, lr: real, gamma: real,
                            s: StateKey, a: int, reward: real, ns: StateKey)
    requires RowsHaveLength(table, dim)
    requires Learn(table, dim, lr, gamma, s, a, reward, ns).Success?
    ensures var r := Learn(table, dim, lr, gamma, s, a, reward, ns).value;
            var t := WithRow(table, ns, dim);
            var j := CellIndex(a, dim).value;
            && RowsHaveLength(r, dim)
            && r.Keys == table.Keys + {ns}
            && (forall k :: k in t && k != s ==> r[k] == t[k])
            && (forall i :: 0 <= i < dim && i != j ==> r[s][i] == t[s][i])
            && r[s][j] == Bellman(t[s][j], reward, MaxOf(t[ns]), lr, gamma)
  {
  }

  /** Choosing an action for a state gives it a row, so updating that state
      afterwards with the chosen (in-range) index cannot fail. */
  lemma UpdateAfterSelectSucceeds(table: map<StateKey, seq<real>>, dim: nat, lr: real, gamma: real,
                                  s: StateKey, a: nat, reward: real, ns: StateKey)
    requires RowsHaveLength(table, dim) && a < dim
    ensures Learn(WithRow(table, s, dim), dim, lr, gamma, s, a, reward, ns).Success?
  {
  }

  /** An unseen next state bootstraps with value 0. */
  lemma UnseenNextStateBootstrapsZero(table: map<StateKey, seq<real>>, ns: StateKey, dim: nat)
    requires RowsHaveLength(table, dim) && ns !in table && dim >= 1
    ensures MaxOf(WithRow(table, ns, dim)[ns]) == 0.0
  {
  }

  /** On a fresh row of zeros the greedy choice is action 0. */
  lemma GreedyOnFreshRow(dim: nat)
    requires dim >= 1
    ensures ArgMax(Zeros(dim)) == 0
  {
  }

  /** `DQNAgent` */
  class DqnAgent {
    var qTable: map<StateKey, seq<real>>
    const lr: real
    const gamma: real
    const actionDim: nat
    /** `_key`: rounds every component to two decimals; left uninterpreted. */
    const keyOf: seq<real> -> StateKey

    ghost predicate Valid()
      reads this
    {
      RowsHaveLength(qTable, actionDim)
    }

    constructor (actionDim: nat, lr: real, gamma: real, keyOf: seq<real> -> StateKey)
      ensures Valid()
      ensures qTable == map[]
      ensures this.actionDim == actionDim && this.lr == lr && this.gamma == gamma && this.keyOf == keyOf
    {
      qTable := map[];
      this.lr := lr;
      this.gamma := gamma;
      this.actionDim := actionDim;
      this.keyOf := keyOf;
    }

    /** `select_action(state, eps)`: makes sure the state has a row, then
        with probability `eps` picks any index, otherwise the greedy one.
        The random draws are left open. */
    method SelectAction(state: seq<real>, eps: real) returns (r: Result<Choice, DqnError>)
      requires Valid()
      modifies this`qTable
      ensures Valid()
      ensures qTable == WithRow(old(qTable), keyOf(state), actionDim)
      ensures r.Success? ==>
                && r.value.index < actionDim
                && r.value.index < |Catalogue()|
                && r.value.action == Catalogue()[r.value.index]
      ensures r.Success? && eps <= 0.0 ==> r.value.index == ArgMax(qTable[keyOf(state)])
      ensures actionDim == 0 ==> r == Failure(EmptyActionSpace)
      ensures 1 <= actionDim <= |Catalogue()| ==> r.Success?
    {
      var key := keyOf(state);
      if key !in qTable {
        qTable := qTable[key := Zeros(actionDim)];
      }
      var u: real :| 0.0 <= u < 1.0;
      var idx: nat;
      if u < eps {
        if actionDim == 0 {
          return Failure(EmptyActionSpace);
        }
        idx :| 0 <= idx < actionDim;
      } else {
        if actionDim == 0 {
          return Failure(EmptyActionSpace);
        }
        idx := ArgMax(qTable[key]);
      }
      if idx >= |Catalogue()| {
        return Failure(ActionIndexOutOfRange);
      }
      r := Success(Choice(Catalogue()[idx], idx));
    }

    /** `update(state, action_idx, reward, next_state)`: the next state's row
        is created before the current state's row is read, so it stays even
        when the update then fails. */
    method Update(state: seq<real>, actionIdx: int, reward: real, nextState: seq<real>) returns (r: Result<(), DqnError>)
      requires Valid()
      modifies this`qTable
      ensures Valid()
      ensures var learned := Learn(old(qTable), actionDim, lr, gamma, keyOf(state), actionIdx, reward, keyOf(nextState));
              && (r.Success? <==> learned.Success?)
              && qTable == if learned.Success? then learned.value
                           else WithRow(old(qTable), keyOf(nextState), actionDim)
    {
      var s := keyOf(state);
      var ns := keyOf(nextState);
      if ns !in qTable {
        qTable := qTable[ns := Zeros(actionDim)];
      }
      if s !in qTable {
        return Failure(UnknownStateKey);
      }
      var cell := CellIndex(actionIdx, actionDim);
      if cell.None? {
        return Failure(ActionIndexOutOfRange);
      }
      var j := cell.value;
      var qOld := qTable[s][j];
      var qNext := MaxOf(qTable[ns]);
      qTable := qTable[s := qTable[s][j := Bellman(qOld, reward, qNext, lr, gamma)]];
      r := Success(());
    }
  }
}
