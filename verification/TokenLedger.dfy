/** The counter contract's token ledger: accounts registered once, balances moved
    between them with `u64` arithmetic that wraps. */
module TokenLedger {
  import opened Basics
  import MapSums

  datatype User = User(telegramId: string, nickname: string, firstname: string, lastname: string, balance: u64)

  datatype TransferRequest = TransferRequest(fromId: string, toId: string, amount: u64)

  datatype Response = Response(success: bool, message: string, data: Option<User>)

  type Users = map<string, User>

  function Refused(message: string): Response {
    Response(false, message, None)
  }

  /** A call to the contract. `None` stands for a payload that does not parse. */
  datatype Call = Register(user: Option<User>) | Transfer(request: Option<TransferRequest>)

  predicate Registers(users: Users, call: Call) {
    call.Register? && call.user.Some? && call.user.value.telegramId !in users
  }

  predicate Transfers(users: Users, call: Call) {
    call.Transfer? && call.request.Some? &&
    var r := call.request.value;
    r.fromId in users && r.toId in users && users[r.fromId].balance >= r.amount
  }

  /** The ledger after a call. */
  function After(users: Users, call: Call): Users {
    if Registers(users, call) then users[call.user.value.telegramId := call.user.value]
    else if Transfers(users, call) && call.request.value.fromId != call.request.value.toId then
      var r := call.request.value;
      var from, to := users[r.fromId], users[r.toId];
      users[r.fromId := from.(balance := from.balance - r.amount)][r.toId := to.(balance := Wrap64(to.balance + r.amount))]
    else users
  }

  class Contract {
    var users: Users

    constructor ()
      ensures users == map[]
    {
      users := map[];
    }

    method RegisterUser(user: Option<User>) returns (response: Response)
      modifies this
      ensures users == After(old(users), Register(user))
      ensures response.success == Registers(old(users), Register(user))
      ensures response.success ==> response.data == user
      ensures !response.success ==> response == Refused(
        if user.None? then "Failed to parse user data" else "User already exists")
    {
      if user.None? {
        return Refused("Failed to parse user data");
      }
      if user.value.telegramId in users {
        return Refused("User already exists");
      }
      users := users[user.value.telegramId := user.value];
      return Response(true, "User registered successfully", user);
    }

    method TransferTokens(request: Option<TransferRequest>) returns (response: Response)
      modifies this
      ensures users == After(old(users), Transfer(request))
      ensures response.success == Transfers(old(users), Transfer(request))
      ensures response.success ==> request.value.toId in users && response.data == Some(users[request.value.toId])
      ensures !response.success ==> response == Refused(
        if request.None? then "Failed to parse transfer data"
        else if request.value.fromId !in old(users) then "Sender not found"
        else if request.value.toId !in old(users) then "Recipient not found"
        else "Insufficient balance")
    {
      if request.None? {
        return Refused("Failed to parse transfer data");
      }
      var TransferRequest(fromId, toId, amount) := request.value;
      if fromId !in users {
        return Refused("Sender not found");
      }
      if toId !in users {
        return Refused("Recipient not found");
      }
      var fromUser := users[fromId];
      if fromUser.balance < amount {
        return Refused("Insufficient balance");
      }
      users := users[fromId := fromUser.(balance := fromUser.balance - amount)];
      var toUser := users[toId];
      users := users[toId := toUser.(balance := Wrap64(toUser.balance + amount))];
      return Response(true, "Transfer successful", Some(users[toId]));
    }
  }

  // --- Conservation -------------------------------------------------------

  function Balances(users: Users): map<string, nat> {
    map id | id in users :: users[id].balance
  }

  ghost function Total(users: Users): nat {
    MapSums.Sum(Balances(users))
  }

  /** Tokens a call brings into the ledger. */
  function Minted(users: Users, call: Call): nat {
    if Registers(users, call) then call.user.value.balance else 0
  }

  /** The guard under which a transfer overflows the recipient's balance. */
  predicate Overflows(users: Users, call: Call) {
    Transfers(users, call) &&
    var r := call.request.value;
    r.fromId != r.toId && users[r.toId].balance + r.amount >= TWO_TO_THE_64
  }

  function AfterAll(users: Users, calls: seq<Call>): Users
    decreases |calls|
  {
    if calls == [] then users else AfterAll(After(users, calls[0]), calls[1..])
  }

  function MintedBy(users: Users, calls: seq<Call>): nat
    decreases |calls|
  {
    if calls == [] then 0 else Minted(users, calls[0]) + MintedBy(After(users, calls[0]), calls[1..])
  }

  function OverflowsIn(users: Users, calls: seq<Call>): nat
    decreases |calls|
  {
    if calls == [] then 0
    else (if Overflows(users, calls[0]) then 1 else 0) + OverflowsIn(After(users, calls[0]), calls[1..])
  }

  lemma OneTransfer(users: Users, r: TransferRequest)
    requires Transfers(users, Transfer(Some(r))) && r.fromId != r.toId
    ensures var to := users[r.toId].balance;
      Total(After(users, Transfer(Some(r)))) + to + r.amount == Total(users) + Wrap64(to + r.amount)
  {
    var b := Balances(users);
    var less := b[r.fromId := b[r.fromId] - r.amount];
    var more := Wrap64(b[r.toId] + r.amount);
    MapSums.SumWith(b, r.fromId, b[r.fromId] - r.amount);
    MapSums.SumWith(less, r.toId, more);
    BalancesAfterTransfer(users, r);
  }

  lemma BalancesAfterTransfer(users: Users, r: TransferRequest)
    requires Transfers(users, Transfer(Some(r))) && r.fromId != r.toId
    ensures var b := Balances(users);
      Balances(After(users, Transfer(Some(r)))) == b[r.fromId := b[r.fromId] - r.amount][r.toId := Wrap64(b[r.toId] + r.amount)]
  {
  }

  lemma OneCall(users: Users, call: Call)
    ensures Total(After(users, call)) + (if Overflows(users, call) then TWO_TO_THE_64 else 0)
         == Total(users) + Minted(users, call)
  {
    if Registers(users, call) {
      var user := call.user.value;
      MapSums.SumWith(Balances(users), user.telegramId, user.balance);
      assert Balances(After(users, call)) == Balances(users)[user.telegramId := user.balance];
    } else if Transfers(users, call) && call.request.value.fromId != call.request.value.toId {
      OneTransfer(users, call.request.value);
    }
  }

  /** Over every run, refusals and self-transfers included, each overflowing transfer
      destroys exactly 2^64 tokens and nothing else changes the total. */
  lemma {:induction false} Conservation(users: Users, calls: seq<Call>)
    ensures Total(AfterAll(users, calls)) + OverflowsIn(users, calls) * TWO_TO_THE_64
         == Total(users) + MintedBy(users, calls)
    decreases |calls|
  {
    if calls != [] {
      OneCall(users, calls[0]);
      Conservation(After(users, calls[0]), calls[1..]);
    }
  }

  /** From the empty ledger the balances always add up to the registered amounts modulo 2^64,
      they add up exactly when no transfer overflowed, and that is certain while the
      registered amounts stay below 2^64. */
  lemma ConservationFromEmpty(calls: seq<Call>)
    ensures var total, minted := Total(AfterAll(map[], calls)), MintedBy(map[], calls);
      && total % TWO_TO_THE_64 == minted % TWO_TO_THE_64
      && (total == minted <==> OverflowsIn(map[], calls) == 0)
      && (minted < TWO_TO_THE_64 ==> OverflowsIn(map[], calls) == 0)
  {
    Conservation(map[], calls);
    assert Balances(map[]) == map[];
    var n := OverflowsIn(map[], calls);
    Congruent(Total(AfterAll(map[], calls)), n);
  }

  lemma Congruent(a: int, n: nat)
    ensures (a + n * TWO_TO_THE_64) % TWO_TO_THE_64 == a % TWO_TO_THE_64
  {
  }

  /** One call keeps the total exactly when it is not an overflowing transfer. */
  lemma ExactlyUnlessOverflow(users: Users, call: Call)
    ensures Total(After(users, call)) == Total(users) + Minted(users, call) <==> !Overflows(users, call)
  {
    OneCall(users, call);
  }

  lemma CallsAdd(users: Users, call: Call, calls: seq<Call>)
    ensures MintedBy(users, [call] + calls) == Minted(users, call) + MintedBy(After(users, call), calls)
    ensures OverflowsIn(users, [call] + calls) == (if Overflows(users, call) then 1 else 0) + OverflowsIn(After(users, call), calls)
  {
    assert ([call] + calls)[1..] == calls;
  }

  // --- Accounts -----------------------------------------------------------

  /** The first call that registers the id. */
  function Registration(calls: seq<Call>, id: string): Option<User> {
    if calls == [] then None
    else if calls[0].Register? && calls[0].user.Some? && calls[0].user.value.telegramId == id then calls[0].user
    else Registration(calls[1..], id)
  }

  /** What an account's balance gains, and loses, by transfers that its ledger covers. */
  function Gain(users: Users, call: Call, id: string): int {
    if call.Register? || call.request.None? then 0
    else
      var TransferRequest(fromId, toId, amount) := call.request.value;
      if fromId in users && toId in users && amount <= users[fromId].balance then
        (if toId == id then amount else 0) - (if fromId == id then amount else 0)
      else 0
  }

  function Gains(users: Users, calls: seq<Call>, id: string): int
    decreases |calls|
  {
    if calls == [] then 0 else Gain(users, calls[0], id) + Gains(After(users, calls[0]), calls[1..], id)
  }

  lemma CallGains(users: Users, call: Call, id: string)
    requires id in users
    ensures id in After(users, call)
    ensures var user, user' := users[id], After(users, call)[id];
      user'.(balance := user.balance) == user && user'.balance == (user.balance + Gain(users, call, id)) % TWO_TO_THE_64
  {
  }

  lemma CallRegisters(users: Users, call: Call, id: string)
    requires id !in users
    ensures id in After(users, call) <==> call.Register? && call.user.Some? && call.user.value.telegramId == id
    ensures id in After(users, call) ==> After(users, call)[id] == call.user.value
    ensures Gain(users, call, id) == 0
  {
  }

  lemma AddModulo(a: int, b: int, c: int)
    requires a == b % TWO_TO_THE_64
    ensures (a + c) % TWO_TO_THE_64 == (b + c) % TWO_TO_THE_64
  {
  }

  /** After any calls an id has an account if and only if some call registered it. The account is the
      one first registered, and its balance that one plus what covered transfers brought and took,
      modulo 2^64. */
  lemma {:induction false} AccountsExactly(users: Users, calls: seq<Call>, id: string)
    ensures var end := AfterAll(users, calls);
      && (id in end <==> id in users || Registration(calls, id).Some?)
      && (id in end ==>
            var first := if id in users then users[id] else Registration(calls, id).value;
            && end[id].(balance := first.balance) == first
            && end[id].balance == (first.balance + Gains(users, calls, id)) % TWO_TO_THE_64)
    decreases |calls|
  {
    if calls != [] {
      var users' := After(users, calls[0]);
      AccountsExactly(users', calls[1..], id);
      if id in users {
        CallGains(users, calls[0], id);
        AddModulo(users'[id].balance, users[id].balance + Gain(users, calls[0], id), Gains(users', calls[1..], id));
      } else {
        CallRegisters(users, calls[0], id);
      }
    }
  }

  /** Conservation does fail: two accounts holding 2^64 - 1 and 1 can merge into nothing. */
  lemma TokensCanVanish()
    ensures exists calls :: MintedBy(map[], calls) == TWO_TO_THE_64 && Total(AfterAll(map[], calls)) == 0
  {
    var rich := User("a", "", "", "", TWO_TO_THE_64 - 1);
    var poor := User("b", "", "", "", 1);
    var c0, c1, c2 := Register(Some(rich)), Register(Some(poor)), Transfer(Some(TransferRequest("b", "a", 1)));
    var u1 := After(map[], c0);
    var u2 := After(u1, c1);
    assert u2["a"] == rich && u2["b"] == poor;
    assert Overflows(u2, c2);
    var calls := [c0, c1, c2];
    CallsAdd(u2, c2, []);
    CallsAdd(u1, c1, [c2]);
    CallsAdd(map[], c0, [c1, c2]);
    assert [c2] == [c2] + [] && [c1, c2] == [c1] + [c2] && calls == [c0] + [c1, c2];
    Conservation(map[], calls);
    assert Balances(map[]) == map[];
  }

  /** A call changes nothing but the balances of the accounts it names. */
  lemma OthersUntouched(users: Users, call: Call, id: string)
    requires id in users
    ensures id in After(users, call)
    ensures After(users, call)[id].(balance := users[id].balance) == users[id]
    ensures After(users, call)[id] != users[id] ==>
      call.Transfer? && call.request.Some? && id in {call.request.value.fromId, call.request.value.toId}
  {
  }
}
