/** The table of fixed addresses. */
module FixedPools {
  import opened Hosts

  class FixedPool {
    var users: map<string, Host>
    var count: int

    ghost predicate Valid()
      reads this
    {
      count == |users|
    }

    constructor ()
      ensures Valid() && users == map[]
    {
      users := map[];
      count := 0;
    }

    method Lookup(user: Option<string>) returns (ip: Option<Host>)
      ensures ip == if user.Some? && user.value in users then Some(users[user.value]) else None
    {
      if user.None? {
        return None;
      }
      ip := if user.value in users then Some(users[user.value]) else None;
    }

    /** Later entries replace earlier ones; the counter counts names, not calls. */
    method Add(user: Option<string>, ip: Option<Host>) returns (ok: bool)
      requires Valid()
      modifies this
      ensures Valid()
      ensures ok <==> user.Some? && ip.Some?
      ensures users == if ok then old(users)[user.value := ip.value] else old(users)
    {
      if user.None? || ip.None? {
        return false;
      }
      var replaced := user.value in users;
      users := users[user.value := ip.value];
      if !replaced {
        count := count + 1;
      }
      return true;
    }
  }
}

/** The event-driven policy parser, as a step function on its variables. */
module YamlParser {
  import opened Hosts
  import opened Naming

  /** The libyaml events the loop distinguishes; `Other` stands for those it ignores. */
  datatype Event = MappingStart | MappingEnd | Scalar(value: string) | StreamEnd | ParseError | Other

  datatype Section = Top | Users | User | Pool

  datatype Policy = Policy(users: map<string, Host>, start: Option<Host>, end: Option<Host>)

  /** The variables of the loop and what it fills in. */
  datatype Parser = Parser(st: Section, pending: Option<string>, curUser: string, policy: Policy)

  /** `host_create_from_string`. */
  type Resolver = string -> Option<Host>

  const NAME_BUF: nat := 256

  function Initial(users: map<string, Host>): Parser {
    Parser(Top, None, "", Policy(users, None, None))
  }

  function OnMappingStart(p: Parser): Parser {
    match (p.st, p.pending)
    case (Top, Some(key)) =>
      p.(st := if key == "users" then Users else if key == "pool" then Pool else Top, pending := None)
    case (Users, Some(name)) => p.(st := User, pending := None, curUser := Snprintf(NAME_BUF, name))
    case _ => p
  }

  function OnMappingEnd(p: Parser): Parser {
    match p.st
    case User => p.(st := Users, curUser := "")
    case Users => p.(st := Top)
    case Pool => p.(st := Top)
    case Top => p
  }

  function OnPair(resolve: Resolver, p: Parser, key: string, value: string): Policy {
    if p.st == User && key == "ip" then
      match resolve(value)
      case Some(ip) => p.policy.(users := p.policy.users[p.curUser := ip])
      case None => p.policy
    else if p.st == Pool && key == "start" then p.policy.(start := resolve(value))
    else if p.st == Pool && key == "end" then p.policy.(end := resolve(value))
    else p.policy
  }

  function OnScalar(resolve: Resolver, p: Parser, value: string): Parser {
    match p.pending
    case None => p.(pending := Some(value))
    case Some(key) => p.(pending := None, policy := OnPair(resolve, p, key, value))
  }

  function Step(resolve: Resolver, p: Parser, e: Event): Parser {
    match e
    case MappingStart => OnMappingStart(p)
    case MappingEnd => OnMappingEnd(p)
    case Scalar(value) => OnScalar(resolve, p, value)
    case _ => p
  }

  /** All of `events`, none of which ends the stream. */
  function Feed(resolve: Resolver, p: Parser, events: seq<Event>): Parser
    decreases |events|
  {
    if events == [] then p else Feed(resolve, Step(resolve, p, events[0]), events[1..])
  }

  /** Runs to the end of the stream (success) or to the first error. */
  function Run(resolve: Resolver, p: Parser, events: seq<Event>): (bool, Parser)
    decreases |events|
  {
    if events == [] || events[0] == ParseError then (false, p)
    else if events[0] == StreamEnd then (true, p)
    else Run(resolve, Step(resolve, p, events[0]), events[1..])
  }

  /** What a policy file says, if it can be opened and parsed. */
  function Load(resolve: Resolver, file: Option<seq<Event>>): Option<Policy> {
    if file.None? then None
    else
      var (ok, p) := Run(resolve, Initial(map[]), file.value);
      if ok then Some(p.policy) else None
  }

  /** The stream ends, and no error comes before its end. */
  predicate ReadsToEnd(events: seq<Event>) {
    exists i :: 0 <= i < |events| && events[i] == StreamEnd && forall j | 0 <= j < i :: events[j] != ParseError
  }

  lemma {:induction false} RunSucceedsExactly(resolve: Resolver, p: Parser, events: seq<Event>)
    ensures Run(resolve, p, events).0 <==> ReadsToEnd(events)
    decreases |events|
  {
    if events != [] && events[0] != ParseError && events[0] != StreamEnd {
      var rest := events[1..];
      RunSucceedsExactly(resolve, Step(resolve, p, events[0]), rest);
      if ReadsToEnd(rest) {
        var i :| 0 <= i < |rest| && rest[i] == StreamEnd && forall j | 0 <= j < i :: rest[j] != ParseError;
        assert events[i + 1] == StreamEnd;
        assert forall j | 0 <= j < i + 1 :: j == 0 || events[j] == rest[j - 1];
      }
      if ReadsToEnd(events) {
        var i :| 0 <= i < |events| && events[i] == StreamEnd && forall j | 0 <= j < i :: events[j] != ParseError;
        assert rest[i - 1] == StreamEnd;
        assert forall j | 0 <= j < i - 1 :: rest[j] == events[j + 1];
      }
    } else if events != [] && events[0] == StreamEnd {
      assert events[0] == StreamEnd;
    }
  }

  /** A file is refused exactly when it cannot be opened, or does not come to its end without an error. */
  lemma LoadSucceedsExactly(resolve: Resolver, file: Option<seq<Event>>)
    ensures Load(resolve, file).Some? <==> file.Some? && ReadsToEnd(file.value)
  {
    if file.Some? {
      RunSucceedsExactly(resolve, Initial(map[]), file.value);
    }
  }
}

/** `yaml_load_policy`. */
module YamlLoader {
  import opened Hosts
  import opened Naming
  import opened FixedPools
  import opened YamlParser

  /** The event loop.  It leaves what the step function computes in the table and the end points,
      also when it gives up half way. */
  method LoadPolicy(resolve: Resolver, file: Option<seq<Event>>, fixed: FixedPool)
    returns (rc: int, poolStart: Option<Host>, poolEnd: Option<Host>)
    requires fixed.Valid()
    modifies fixed
    ensures fixed.Valid()
    ensures file.None? ==> rc == -1 && fixed.users == old(fixed.users) && poolStart.None? && poolEnd.None?
    ensures file.Some? ==>
              var (ok, p) := Run(resolve, Initial(old(fixed.users)), file.value);
              && rc == (if ok then 0 else -1)
              && (rc == 0 <==> ReadsToEnd(file.value))
              && p.policy == Policy(fixed.users, poolStart, poolEnd)
  {
    rc, poolStart, poolEnd := -1, None, None;
    if file.None? {
      return;
    }
    var events := file.value;
    RunSucceedsExactly(resolve, Initial(fixed.users), events);
    var st, pending, curUser := Section.Top, None, "";
    var done, i := false, 0;
    while !done
      invariant 0 <= i <= |events| && fixed.Valid()
      invariant var p := Parser(st, pending, curUser, Policy(fixed.users, poolStart, poolEnd));
                Run(resolve, Initial(old(fixed.users)), events)
                  == if done then (true, p) else Run(resolve, p, events[i..])
      decreases |events| - i, !done
    {
      if i == |events| || events[i] == ParseError {
        return;
      }
      assert events[i..][0] == events[i] && events[i..][1..] == events[i + 1..];
      match events[i] {
        case StreamEnd =>
          done := true;
        case MappingStart =>
          if st == Top && pending.Some? {
            if pending.value == "users" {
              st := Users;
            } else if pending.value == "pool" {
              st := Pool;
            }
            pending := None;
          } else if st == Users && pending.Some? {
            curUser := Snprintf(NAME_BUF, pending.value);
            st := User;
            pending := None;
          }
        case MappingEnd =>
          if st == User {
            st := Users;
            curUser := "";
          } else if st == Users {
            st := Top;
          } else if st == Pool {
            st := Top;
          }
        case Scalar(value) =>
          if pending.None? {
            pending := Some(value);
          } else {
            if st == User && pending.value == "ip" {
              var ip := resolve(value);
              if ip.Some? {
                var _ := fixed.Add(Some(curUser), ip);
              }
            } else if st == Pool {
              if pending.value == "start" {
                poolStart := resolve(value);
              } else if pending.value == "end" {
                poolEnd := resolve(value);
              }
            }
            pending := None;
          }
        case _ =>
      }
      i := i + 1;
    }
    rc := 0;
  }
}
