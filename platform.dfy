/**
 * The point-award rules of the coding platform's bot: `/start` registers a
 * user once, and a submitted task is credited at most once, adding the
 * task's points and appending its id to the user's completed list.
 *
 * The rules are stated twice: on values (`Register`, `Award`, `Submission`),
 * where the ledger invariant is proved for any sequence of requests, and on
 * the `Platform` and `User` objects whose fields the handlers update in
 * place, whose methods are proved to follow the value rules.
 */
module Platform {
  import opened Wrappers

  /** A task of the catalogue; only its points matter to the award rule. */
  datatype Task = Task(title: string, description: string, difficulty: string, points: int)

  /** A user's stored state: the name chosen at registration, the points and the solved task ids. */
  datatype Account = Account(username: string, points: int, completed: seq<int>)

  /**
   * The answer of the submit endpoint:
   * `Unauthorized` is status 401 (bad signature), `SubmissionFailed` status
   * 500 (an exception inside the handler), `AlreadySolved` status 200 with
   * `passed` false, and `Solved` status 200 with `passed` true, the awarded
   * points, the new total and the new number of solved tasks.
   */
  datatype SubmitResponse =
    | Unauthorized
    | SubmissionFailed
    | AlreadySolved
    | Solved(awarded: int, newPoints: int, newCompletedCount: nat)

  /** The account after one award and the answer given. */
  datatype Step = Step(account: Account, response: SubmitResponse)

  /**
   * One request to the submit endpoint: whether the signature of the init
   * data checks out, the user it names, and the task id after `int(...)`
   * (None when that conversion raises).
   */
  datatype Request = Request(signatureValid: bool, userId: int, taskId: Option<int>)

  /** All accounts and the answer to one request. */
  datatype Outcome = Outcome(accounts: map<int, Account>, response: SubmitResponse)

  /** The name shown and stored: the Telegram username, or the first name when there is none. */
  function DisplayName(username: Option<string>, firstName: string): (name: string)
    ensures username.Some? && username.value != "" ==> name == username.value
    ensures username.None? || username.value == "" ==> name == firstName
  {
    match username
    case Some(u) => if u != "" then u else firstName
    case None => firstName
  }

  /** The greeting `/start` answers with. */
  function Greeting(name: string): (text: string)
    ensures |text| > 8 + |name| && text[..8] == "Привет, " && name <= text[8..]
  {
    "Привет, " + name + "! \U{1F44B}\nДобро пожаловать в кодинг-платформу!"
  }

  /** No task id occurs twice. */
  predicate NoDuplicates(ids: seq<int>) {
    forall i, j :: 0 <= i < j < |ids| ==> ids[i] != ids[j]
  }

  /** The points the tasks `ids` are worth, counting each occurrence. */
  function Earned(ids: seq<int>, tasks: map<int, Task>): int {
    if ids == [] then 0
    else (if ids[0] in tasks then tasks[ids[0]].points else 0) + Earned(ids[1..], tasks)
  }

  /** The ledger invariant: every solved task exists, none twice, and the points are exactly theirs. */
  predicate Consistent(a: Account, tasks: map<int, Task>) {
    NoDuplicates(a.completed)
    && (forall i :: 0 <= i < |a.completed| ==> a.completed[i] in tasks)
    && a.points == Earned(a.completed, tasks)
  }

  /** Every account satisfies the ledger invariant. */
  predicate AllConsistent(accounts: map<int, Account>, tasks: map<int, Task>) {
    forall id :: id in accounts ==> Consistent(accounts[id], tasks)
  }

  /** A newly registered account: no points and nothing solved. */
  function NewAccount(name: string): (a: Account)
    ensures a.username == name && a.points == 0 && a.completed == []
  {
    Account(name, 0, [])
  }

  /** `/start`: an unknown user is added with a new account, a known one is left alone. */
  function Register(accounts: map<int, Account>, userId: int, name: string): (r: map<int, Account>)
    ensures r.Keys == accounts.Keys + {userId}
    ensures userId in accounts ==> r == accounts
    ensures userId !in accounts ==> r[userId] == NewAccount(name)
    ensures forall id :: id in accounts ==> r[id] == accounts[id]
  {
    if userId in accounts then accounts else accounts[userId := NewAccount(name)]
  }

  /**
   * Crediting task `taskId` to account `a`: refused when already solved (the
   * check comes before the task is looked up), a failure when the task does
   * not exist, otherwise the task's points are added and its id appended.
   */
  function Award(a: Account, taskId: int, tasks: map<int, Task>): (s: Step)
    ensures s.account.username == a.username
    ensures s.response.Solved? <==> taskId !in a.completed && taskId in tasks
    ensures s.response == AlreadySolved <==> taskId in a.completed
    ensures taskId !in a.completed && taskId !in tasks ==> s.response == SubmissionFailed
    ensures !s.response.Solved? ==> s.account == a
    ensures s.response.Solved? ==>
              s.account.completed == a.completed + [taskId]
              && s.account.points == a.points + tasks[taskId].points
              && s.response == Solved(tasks[taskId].points, s.account.points, |a.completed| + 1)
  {
    if taskId in a.completed then Step(a, AlreadySolved)
    else if taskId !in tasks then Step(a, SubmissionFailed)
    else
      var task := tasks[taskId];
      var updated := Account(a.username, a.points + task.points, a.completed + [taskId]);
      Step(updated, Solved(task.points, updated.points, |updated.completed|))
  }

  /**
   * One request to the submit endpoint over all accounts: a bad signature is
   * refused, an unknown user or a task id that is not an integer fails, and
   * otherwise the award rule is applied to that user's account alone.
   */
  function Submission(accounts: map<int, Account>, tasks: map<int, Task>, req: Request): (o: Outcome)
    ensures o.accounts.Keys == accounts.Keys
    ensures forall id :: id in accounts && id != req.userId ==> o.accounts[id] == accounts[id]
    ensures !req.signatureValid ==> o == Outcome(accounts, Unauthorized)
    ensures req.signatureValid && (req.userId !in accounts || req.taskId.None?)
            ==> o == Outcome(accounts, SubmissionFailed)
    ensures req.signatureValid && req.userId in accounts && req.taskId.Some?
            ==> var s := Award(accounts[req.userId], req.taskId.value, tasks);
                o.accounts[req.userId] == s.account && o.response == s.response
  {
    if !req.signatureValid then Outcome(accounts, Unauthorized)
    else if req.userId !in accounts || req.taskId.None? then Outcome(accounts, SubmissionFailed)
    else
      var s := Award(accounts[req.userId], req.taskId.value, tasks);
      Outcome(accounts[req.userId := s.account], s.response)
  }

  /** The accounts after answering `reqs` in order. */
  function Replay(accounts: map<int, Account>, tasks: map<int, Task>, reqs: seq<Request>): map<int, Account> {
    if reqs == [] then accounts
    else Replay(Submission(accounts, tasks, reqs[0]).accounts, tasks, reqs[1..])
  }

  /** Appending a task adds exactly its points to what the list is worth. */
  lemma {:induction false} EarnedAppend(ids: seq<int>, taskId: int, tasks: map<int, Task>)
    requires taskId in tasks
    ensures Earned(ids + [taskId], tasks) == Earned(ids, tasks) + tasks[taskId].points
  {
    if ids == [] {
      assert [taskId][1..] == [];
    } else {
      assert (ids + [taskId])[1..] == ids[1..] + [taskId];
      EarnedAppend(ids[1..], taskId, tasks);
    }
  }

  /** A new account satisfies the ledger invariant. */
  lemma NewAccountConsistent(name: string, tasks: map<int, Task>)
    ensures Consistent(NewAccount(name), tasks)
  {
  }

  /** Registration keeps every account consistent. */
  lemma RegisterPreservesConsistency(accounts: map<int, Account>, tasks: map<int, Task>, userId: int, name: string)
    requires AllConsistent(accounts, tasks)
    ensures AllConsistent(Register(accounts, userId, name), tasks)
  {
    NewAccountConsistent(name, tasks);
  }

  /** An award keeps the ledger invariant: no task twice, and points equal to what the solved tasks are worth. */
  lemma AwardPreservesConsistency(a: Account, taskId: int, tasks: map<int, Task>)
    requires Consistent(a, tasks)
    ensures Consistent(Award(a, taskId, tasks).account, tasks)
  {
    if taskId !in a.completed && taskId in tasks {
      EarnedAppend(a.completed, taskId, tasks);
    }
  }

  /**
   * Submitting the same task a second time changes nothing and is answered
   * `AlreadySolved`, once the first submission was credited.
   */
  lemma AwardTwiceCountsOnce(a: Account, taskId: int, tasks: map<int, Task>)
    requires Award(a, taskId, tasks).response.Solved?
    ensures var once := Award(a, taskId, tasks).account;
            Award(once, taskId, tasks) == Step(once, AlreadySolved)
  {
    var once := Award(a, taskId, tasks).account;
    assert once.completed[|a.completed|] == taskId;
  }

  /** A second identical request leaves every account as the first left it. */
  lemma SubmissionIdempotent(accounts: map<int, Account>, tasks: map<int, Task>, req: Request)
    ensures var first := Submission(accounts, tasks, req);
            Submission(first.accounts, tasks, req).accounts == first.accounts
  {
    var first := Submission(accounts, tasks, req);
    if req.signatureValid && req.userId in accounts && req.taskId.Some?
       && Award(accounts[req.userId], req.taskId.value, tasks).response.Solved? {
      AwardTwiceCountsOnce(accounts[req.userId], req.taskId.value, tasks);
    }
  }

  /** Every request keeps every account consistent. */
  lemma SubmissionPreservesConsistency(accounts: map<int, Account>, tasks: map<int, Task>, req: Request)
    requires AllConsistent(accounts, tasks)
    ensures AllConsistent(Submission(accounts, tasks, req).accounts, tasks)
  {
    if req.signatureValid && req.userId in accounts && req.taskId.Some? {
      AwardPreservesConsistency(accounts[req.userId], req.taskId.value, tasks);
    }
  }

  /** After any sequence of requests every account still satisfies the ledger invariant. */
  lemma {:induction false} ReplayPreservesConsistency(accounts: map<int, Account>, tasks: map<int, Task>,
                                                      reqs: seq<Request>)
    requires AllConsistent(accounts, tasks)
    ensures AllConsistent(Replay(accounts, tasks, reqs), tasks)
    decreases |reqs|
  {
    if reqs != [] {
      SubmissionPreservesConsistency(accounts, tasks, reqs[0]);
      ReplayPreservesConsistency(Submission(accounts, tasks, reqs[0]).accounts, tasks, reqs[1..]);
    }
  }

  /**
   * Requests only ever extend a solved list: after any sequence of requests
   * each user's old list is a prefix of the new one, and with tasks worth
   * no negative points the total never drops.
   */
  lemma {:induction false} ReplayOnlyExtends(accounts: map<int, Account>, tasks: map<int, Task>,
                                             reqs: seq<Request>, id: int)
    requires id in accounts
    requires forall t :: t in tasks ==> tasks[t].points >= 0
    ensures id in Replay(accounts, tasks, reqs)
    ensures accounts[id].completed <= Replay(accounts, tasks, reqs)[id].completed
    ensures accounts[id].points <= Replay(accounts, tasks, reqs)[id].points
    decreases |reqs|
  {
    if reqs != [] {
      var next := Submission(accounts, tasks, reqs[0]).accounts;
      ReplayOnlyExtends(next, tasks, reqs[1..], id);
    }
  }

  /** A registered user: the id and name are fixed, points and solved tasks change. */
  class User {
    const id: int
    const username: string
    var points: int
    var completedTasks: seq<int>

    /** A user as `/start` creates one: 0 points, nothing solved. */
    constructor (id: int, username: string)
      ensures this.id == id && this.username == username
      ensures points == 0 && completedTasks == []
    {
      this.id := id;
      this.username := username;
      points := 0;
      completedTasks := [];
    }

    /** The stored state of this user. */
    function State(): Account
      reads this
    {
      Account(username, points, completedTasks)
    }
  }

  /** The user table and the task catalogue the handlers work on. */
  class Platform {
    var users: map<int, User>
    const tasks: map<int, Task>

    /** An empty user table over a fixed catalogue. */
    constructor (tasks: map<int, Task>)
      ensures this.tasks == tasks && users == map[]
      ensures Valid()
    {
      this.tasks := tasks;
      users := map[];
    }

    /** Each user is stored under its own id and satisfies the ledger invariant. */
    ghost predicate Valid()
      reads this, users.Values
    {
      (forall id :: id in users ==> users[id].id == id)
      && AllConsistent(Accounts(), tasks)
    }

    /** The stored state of every user. */
    ghost function Accounts(): map<int, Account>
      reads this, users.Values
    {
      map id | id in users :: users[id].State()
    }

    /**
     * `/start`: registers the sender unless already known and returns the
     * greeting, which uses the current name even for a known user.
     */
    method Start(userId: int, username: Option<string>, firstName: string) returns (greeting: string)
      requires Valid()
      modifies this
      ensures Valid()
      ensures Accounts() == Register(old(Accounts()), userId, DisplayName(username, firstName))
      ensures greeting == Greeting(DisplayName(username, firstName))
    {
      var name := DisplayName(username, firstName);
      if userId !in users {
        var user := new User(userId, name);
        users := users[userId := user];
        assert Accounts() == old(Accounts())[userId := NewAccount(name)];
        RegisterPreservesConsistency(old(Accounts()), tasks, userId, name);
      }
      greeting := Greeting(name);
    }

    /**
     * `/api/submit`: answers one request, crediting the task to the user in
     * place when it is new to them.
     */
    method Submit(signatureValid: bool, userId: int, taskId: Option<int>) returns (response: SubmitResponse)
      requires Valid()
      modifies if userId in users then {users[userId]} else {}
      ensures Valid()
      ensures var o := Submission(old(Accounts()), tasks, Request(signatureValid, userId, taskId));
              Accounts() == o.accounts && response == o.response
    {
      ghost var req := Request(signatureValid, userId, taskId);
      if !signatureValid {
        return Unauthorized;
      }
      if taskId.None? || userId !in users {
        return SubmissionFailed;
      }
      var user := users[userId];
      var id := taskId.value;
      if id in user.completedTasks {
        return AlreadySolved;
      }
      if id !in tasks {
        return SubmissionFailed;
      }
      var task := tasks[id];
      user.points := user.points + task.points;
      user.completedTasks := user.completedTasks + [id];
      response := Solved(task.points, user.points, |user.completedTasks|);
      forall other | other in users && other != userId
        ensures users[other].State() == old(users[other].State())
      {
        assert users[other].id != user.id;
      }
      assert Accounts() == old(Accounts())[userId := user.State()];
      SubmissionPreservesConsistency(old(Accounts()), tasks, req);
    }
  }
}
