/**
 * The credit ledger seen as a whole: the sum of every user's balance, and how that sum
 * moves when one balance changes or one user is added. The actions' contracts use it to
 * say by how much an action creates or destroys credits.
 */
module Ledger {
  import opened Store

  /** The sum of `credits` over every row of the user table. */
  ghost function TotalCredits(users: map<UserId, User>): int
    decreases |users|
  {
    if users == map[] then 0
    else
      var u :| u in users;
      users[u].credits + TotalCredits(users - {u})
  }

  /** The sum can be split at any user, not only the one the definition happens to pick. */
  lemma {:induction false} TotalWithout(users: map<UserId, User>, u: UserId)
    requires u in users
    ensures TotalCredits(users) == users[u].credits + TotalCredits(users - {u})
    decreases |users|
  {
    var v :| v in users && TotalCredits(users) == users[v].credits + TotalCredits(users - {v});
    if v != u {
      var rest := users - {v};
      assert u in rest;
      TotalWithout(rest, u);
      var restU := users - {u};
      assert v in restU;
      TotalWithout(restU, v);
      assert rest - {u} == restU - {v};
    }
  }

  /** Changing one balance moves the total by exactly the change. */
  lemma SetCredits(users: map<UserId, User>, u: UserId, credits: int)
    requires u in users
    ensures TotalCredits(users[u := users[u].(credits := credits)])
         == TotalCredits(users) + (credits - users[u].credits)
  {
    var after := users[u := users[u].(credits := credits)];
    TotalWithout(users, u);
    TotalWithout(after, u);
    assert after - {u} == users - {u};
  }

  /** `users` with `amount` added to the balance of `u` (Prisma's `credits: { increment: amount }`). */
  function Credit(users: map<UserId, User>, u: UserId, amount: int): (r: map<UserId, User>)
    requires u in users
    ensures r.Keys == users.Keys
    ensures r[u].credits == users[u].credits + amount
    ensures r[u] == users[u].(credits := r[u].credits)
  {
    users[u := users[u].(credits := users[u].credits + amount)]
  }

  /** Crediting `u` changes the row of `u` by exactly the amount and leaves every other row as it was. */
  lemma CreditAt(users: map<UserId, User>, u: UserId, amount: int, v: UserId)
    requires u in users && v in users
    ensures var r := Credit(users, u, amount);
            r[v] == if v == u then users[u].(credits := users[u].credits + amount) else users[v]
  {
  }

  /** Crediting one user raises the total by exactly the amount credited. */
  lemma CreditTotal(users: map<UserId, User>, u: UserId, amount: int)
    requires u in users
    ensures TotalCredits(Credit(users, u, amount)) == TotalCredits(users) + amount
  {
    SetCredits(users, u, users[u].credits + amount);
  }

  /** A change to a row that keeps its balance keeps the total. */
  lemma SameCredits(users: map<UserId, User>, u: UserId, row: User)
    requires u in users && row.credits == users[u].credits
    ensures TotalCredits(users[u := row]) == TotalCredits(users)
  {
    var after := users[u := row];
    TotalWithout(users, u);
    TotalWithout(after, u);
    assert after - {u} == users - {u};
  }

  /** A new user adds exactly the new balance. */
  lemma AddUser(users: map<UserId, User>, u: UserId, row: User)
    requires u !in users
    ensures TotalCredits(users[u := row]) == TotalCredits(users) + row.credits
  {
    var after := users[u := row];
    TotalWithout(after, u);
    assert after - {u} == users;
  }

  /** `users` with `amount` added once to the balance of each user in `payees`. */
  function PayEach(users: map<UserId, User>, payees: set<UserId>, amount: int): (r: map<UserId, User>)
    ensures r.Keys == users.Keys
  {
    map u | u in users :: if u in payees then users[u].(credits := users[u].credits + amount) else users[u]
  }

  /** Each payee gains exactly `amount`; every other row is left as it was. */
  lemma PayEachAt(users: map<UserId, User>, payees: set<UserId>, amount: int, u: UserId)
    requires u in users
    ensures var r := PayEach(users, payees, amount);
            r[u] == if u in payees then users[u].(credits := users[u].credits + amount) else users[u]
  {
  }

  /** Paying one more user is crediting that user on top of the earlier payments. */
  lemma PayEachStep(users: map<UserId, User>, payees: set<UserId>, u: UserId, amount: int)
    requires u in users && u !in payees
    ensures Credit(PayEach(users, payees, amount), u, amount) == PayEach(users, payees + {u}, amount)
  {
    var lhs := Credit(PayEach(users, payees, amount), u, amount);
    var rhs := PayEach(users, payees + {u}, amount);
    assert lhs.Keys == rhs.Keys;
    forall v | v in lhs
      ensures lhs[v] == rhs[v]
    {
    }
  }

  /** Paying every user of `payees` once raises the total by `amount` per payee. */
  lemma {:induction false} PayEachTotal(users: map<UserId, User>, payees: set<UserId>, amount: int)
    requires payees <= users.Keys
    ensures TotalCredits(PayEach(users, payees, amount)) == TotalCredits(users) + amount * |payees|
    decreases |payees|
  {
    if payees == {} {
      assert PayEach(users, payees, amount) == users;
    } else {
      var u :| u in payees;
      var rest := payees - {u};
      assert rest + {u} == payees;
      var before := PayEach(users, rest, amount);
      PayEachTotal(users, rest, amount);
      PayEachStep(users, rest, u, amount);
      CreditTotal(before, u, amount);
      calc {
        TotalCredits(PayEach(users, payees, amount));
        TotalCredits(Credit(before, u, amount));
        TotalCredits(before) + amount;
        TotalCredits(users) + amount * |rest| + amount;
        { assert |payees| == |rest| + 1; MulSucc(amount, |rest|); }
        TotalCredits(users) + amount * |payees|;
      }
    }
  }

  lemma MulSucc(a: int, n: nat)
    ensures a * (n + 1) == a * n + a
  {
  }
}
