/** Policy files as trees: how a tree is printed as parser events, what it says, and that the event
    loop recovers exactly that. */
module PolicyDocuments {
  import opened Hosts
  import opened Naming
  import opened YamlParser

  datatype Node = Leaf(text: string) | Map(entries: Entries)
  datatype Entries = Nil | Cons(key: string, value: Node, rest: Entries)

  function Emit(n: Node): seq<Event> {
    match n
    case Leaf(text) => [Scalar(text)]
    case Map(entries) => [MappingStart] + EmitEntries(entries) + [MappingEnd]
  }

  function EmitEntries(es: Entries): seq<Event> {
    match es
    case Nil => []
    case Cons(key, value, rest) => [Scalar(key)] + Emit(value) + EmitEntries(rest)
  }

  /** A whole file: stream start, document start, the root mapping, document end, stream end. */
  function EmitFile(root: Entries): seq<Event> {
    [Other, Other] + Emit(Map(root)) + [Other, StreamEnd]
  }

  // ---- the shape of a policy file ----

  /** Every key has a scalar value. */
  predicate Flat(es: Entries) {
    es.Nil? || (es.value.Leaf? && Flat(es.rest))
  }

  /** The body of a `users` section: names with flat mappings (scalars in their place are ignored). */
  predicate UsersShape(es: Entries) {
    es.Nil? || ((es.value.Map? ==> Flat(es.value.entries)) && UsersShape(es.rest))
  }

  /** Mappings nested to any depth; those under the keys `users` and `pool` have the shape of a section. */
  predicate FileShape(es: Entries)
    decreases es, 0
  {
    match es
    case Nil => true
    case Cons(_, Leaf(_), rest) => FileShape(rest)
    case Cons(key, Map(body), rest) => MappingShape(key, body) && FileShape(rest)
  }

  predicate MappingShape(key: string, body: Entries)
    decreases body, 1
  {
    if key == "users" then UsersShape(body) else if key == "pool" then Flat(body) else FileShape(body)
  }

  /** No mapping under this one, at any depth, is called `users` or `pool`. */
  predicate Neutral(es: Entries) {
    match es
    case Nil => true
    case Cons(_, Leaf(_), rest) => Neutral(rest)
    case Cons(key, Map(body), rest) => key != "users" && key != "pool" && Neutral(body) && Neutral(rest)
  }

  // ---- what a policy file says ----

  /** One line `key: text` of a section, under the name of its user when there is one. */
  datatype Line = Line(name: string, key: string, text: string)

  function FlatLines(name: string, es: Entries): seq<Line>
    requires Flat(es)
  {
    if es.Nil? then [] else [Line(name, es.key, es.value.text)] + FlatLines(name, es.rest)
  }

  function SectionLines(es: Entries): seq<Line>
    requires UsersShape(es)
  {
    if es.Nil? then []
    else (if es.value.Map? then FlatLines(es.key, es.value.entries) else []) + SectionLines(es.rest)
  }

  /** All lines of all `users` sections, in the order of the file. */
  function UserLines(es: Entries): seq<Line>
    requires FileShape(es)
    decreases es, 0
  {
    match es
    case Nil => []
    case Cons(_, Leaf(_), rest) => UserLines(rest)
    case Cons(key, Map(body), rest) => UserLinesOf(key, body) + UserLines(rest)
  }

  function UserLinesOf(key: string, body: Entries): seq<Line>
    requires MappingShape(key, body)
    decreases body, 1
  {
    if key == "users" then SectionLines(body) else if key == "pool" then [] else UserLines(body)
  }

  /** All lines of all `pool` sections, in the order of the file. */
  function PoolLines(es: Entries): seq<Line>
    requires FileShape(es)
    decreases es, 0
  {
    match es
    case Nil => []
    case Cons(_, Leaf(_), rest) => PoolLines(rest)
    case Cons(key, Map(body), rest) => PoolLinesOf(key, body) + PoolLines(rest)
  }

  function PoolLinesOf(key: string, body: Entries): seq<Line>
    requires MappingShape(key, body)
    decreases body, 1
  {
    if key == "users" then [] else if key == "pool" then FlatLines("", body) else PoolLines(body)
  }

  /** A line that gives a user a usable address. */
  predicate Grants(resolve: Resolver, l: Line) {
    l.key == "ip" && resolve(l.text).Some?
  }

  /** What counts of a name: all of it, or its first 255 bytes. */
  function Stored(name: string): string {
    if |name| < 256 then name else name[..255]
  }

  /** The last usable address given to a name. */
  function LastGrant(resolve: Resolver, lines: seq<Line>, name: string): Option<Host> {
    if lines == [] then None
    else
      var l := lines[|lines| - 1];
      if Grants(resolve, l) && Stored(l.name) == name then resolve(l.text)
      else LastGrant(resolve, lines[..|lines| - 1], name)
  }

  /** The last value of an end point, usable or not. */
  function LastValue(resolve: Resolver, lines: seq<Line>, key: string): Option<Host> {
    if lines == [] then None
    else if lines[|lines| - 1].key == key then resolve(lines[|lines| - 1].text)
    else LastValue(resolve, lines[..|lines| - 1], key)
  }

  /** `policy` is what the lines say, read in order. */
  ghost predicate Says(resolve: Resolver, users: seq<Line>, pool: seq<Line>, policy: Policy) {
    && (forall name :: name in policy.users <==> LastGrant(resolve, users, name).Some?)
    && (forall name | name in policy.users :: LastGrant(resolve, users, name) == Some(policy.users[name]))
    && policy.start == LastValue(resolve, pool, "start")
    && policy.end == LastValue(resolve, pool, "end")
  }

  // ---- the event loop recovers it ----

  lemma {:induction false} FeedConcat(resolve: Resolver, p: Parser, a: seq<Event>, b: seq<Event>)
    ensures Feed(resolve, p, a + b) == Feed(resolve, Feed(resolve, p, a), b)
    decreases |a|
  {
    if a == [] {
      assert a + b == b;
    } else {
      assert (a + b)[0] == a[0] && (a + b)[1..] == a[1..] + b;
      FeedConcat(resolve, Step(resolve, p, a[0]), a[1..], b);
    }
  }

  lemma FeedOne(resolve: Resolver, p: Parser, e: Event)
    ensures Feed(resolve, p, [e]) == Step(resolve, p, e)
  {
    assert Feed(resolve, p, [e]) == Feed(resolve, Step(resolve, p, e), [e][1..]);
  }

  /** A key followed by its value. */
  lemma FeedEntry(resolve: Resolver, p: Parser, es: Entries)
    requires es.Cons? && p.pending.None?
    ensures Feed(resolve, p, EmitEntries(es))
         == Feed(resolve, Feed(resolve, p.(pending := Some(es.key)), Emit(es.value)), EmitEntries(es.rest))
  {
    var k, v, r := [Scalar(es.key)], Emit(es.value), EmitEntries(es.rest);
    FeedConcat(resolve, p, k + v, r);
    FeedConcat(resolve, p, k, v);
    FeedOne(resolve, p, Scalar(es.key));
  }

  lemma FeedMap(resolve: Resolver, p: Parser, body: Entries)
    ensures Feed(resolve, p, Emit(Map(body)))
         == OnMappingEnd(Feed(resolve, OnMappingStart(p), EmitEntries(body)))
  {
    var b := EmitEntries(body);
    FeedConcat(resolve, p, [MappingStart] + b, [MappingEnd]);
    FeedConcat(resolve, p, [MappingStart], b);
    FeedOne(resolve, p, MappingStart);
    FeedOne(resolve, Feed(resolve, OnMappingStart(p), b), MappingEnd);
  }

  /** One line of a user's mapping. */
  function ApplyUser(resolve: Resolver, policy: Policy, l: Line): Policy {
    if Grants(resolve, l)
    then policy.(users := policy.users[Snprintf(NAME_BUF, l.name) := resolve(l.text).value])
    else policy
  }

  function ApplyUsers(resolve: Resolver, policy: Policy, lines: seq<Line>): Policy {
    if lines == [] then policy
    else ApplyUser(resolve, ApplyUsers(resolve, policy, lines[..|lines| - 1]), lines[|lines| - 1])
  }

  function ApplyPool(resolve: Resolver, policy: Policy, lines: seq<Line>): Policy {
    if lines == [] then policy
    else
      var before, l := ApplyPool(resolve, policy, lines[..|lines| - 1]), lines[|lines| - 1];
      if l.key == "start" then before.(start := resolve(l.text))
      else if l.key == "end" then before.(end := resolve(l.text))
      else before
  }

  lemma {:induction false} ApplyUsersConcat(resolve: Resolver, policy: Policy, a: seq<Line>, b: seq<Line>)
    ensures ApplyUsers(resolve, policy, a + b) == ApplyUsers(resolve, ApplyUsers(resolve, policy, a), b)
  {
    if b == [] {
      assert a + b == a;
    } else {
      assert (a + b)[..|a + b| - 1] == a + b[..|b| - 1];
      ApplyUsersConcat(resolve, policy, a, b[..|b| - 1]);
    }
  }

  lemma {:induction false} ApplyPoolConcat(resolve: Resolver, policy: Policy, a: seq<Line>, b: seq<Line>)
    ensures ApplyPool(resolve, policy, a + b) == ApplyPool(resolve, ApplyPool(resolve, policy, a), b)
  {
    if b == [] {
      assert a + b == a;
    } else {
      assert (a + b)[..|a + b| - 1] == a + b[..|b| - 1];
      ApplyPoolConcat(resolve, policy, a, b[..|b| - 1]);
    }
  }

  /** Lines of the two kinds write to different parts of the policy. */
  lemma {:induction false} ApplyCommutes(resolve: Resolver, policy: Policy, users: seq<Line>, pool: seq<Line>)
    ensures ApplyUsers(resolve, policy, users)
         == policy.(users := ApplyUsers(resolve, policy, users).users)
    ensures ApplyPool(resolve, policy, pool)
         == policy.(start := ApplyPool(resolve, policy, pool).start, end := ApplyPool(resolve, policy, pool).end)
    ensures ApplyPool(resolve, ApplyUsers(resolve, policy, users), pool)
         == ApplyUsers(resolve, ApplyPool(resolve, policy, pool), users)
  {
    if users != [] {
      ApplyCommutes(resolve, policy, users[..|users| - 1], pool);
      ApplyPoolIgnoresUsers(resolve, ApplyUsers(resolve, policy, users[..|users| - 1]), users[|users| - 1], pool);
    } else if pool != [] {
      ApplyCommutes(resolve, policy, users, pool[..|pool| - 1]);
    }
  }

  lemma {:induction false} ApplyPoolIgnoresUsers(resolve: Resolver, policy: Policy, l: Line, pool: seq<Line>)
    ensures ApplyPool(resolve, ApplyUser(resolve, policy, l), pool)
         == ApplyUser(resolve, ApplyPool(resolve, policy, pool), l)
    ensures ApplyPool(resolve, policy, pool).users == policy.users
  {
    if pool != [] {
      ApplyPoolIgnoresUsers(resolve, policy, l, pool[..|pool| - 1]);
    }
  }

  lemma {:induction false} FeedUserBody(resolve: Resolver, p: Parser, name: string, body: Entries)
    requires p.st == User && p.pending.None? && p.curUser == Snprintf(NAME_BUF, name) && Flat(body)
    ensures Feed(resolve, p, EmitEntries(body))
         == p.(policy := ApplyUsers(resolve, p.policy, FlatLines(name, body)))
    decreases body
  {
    if body.Cons? {
      var l := Line(name, body.key, body.value.text);
      FeedEntry(resolve, p, body);
      FeedOne(resolve, p.(pending := Some(body.key)), Scalar(body.value.text));
      var q := p.(policy := ApplyUser(resolve, p.policy, l));
      FeedUserBody(resolve, q, name, body.rest);
      ApplyUsersConcat(resolve, p.policy, [l], FlatLines(name, body.rest));
      assert ApplyUsers(resolve, p.policy, [l]) == q.policy by {
        assert [l][..0] == [];
      }
    }
  }

  lemma FeedUser(resolve: Resolver, p: Parser, name: string, props: Entries)
    requires p.st == Users && p.pending.None? && p.curUser == "" && Flat(props)
    ensures Feed(resolve, p.(pending := Some(name)), Emit(Map(props)))
         == p.(policy := ApplyUsers(resolve, p.policy, FlatLines(name, props)))
  {
    var keyed := p.(pending := Some(name));
    FeedMap(resolve, keyed, props);
    FeedUserBody(resolve, OnMappingStart(keyed), name, props);
  }

  lemma {:induction false} FeedUsersSection(resolve: Resolver, p: Parser, body: Entries)
    requires p.st == Users && p.pending.None? && p.curUser == "" && UsersShape(body)
    ensures Feed(resolve, p, EmitEntries(body)) == p.(policy := ApplyUsers(resolve, p.policy, SectionLines(body)))
    decreases body
  {
    if body.Cons? {
      hide ApplyUsers, Feed, Emit, EmitEntries, Snprintf;
      FeedEntry(resolve, p, body);
      var keyed := p.(pending := Some(body.key));
      match body.value {
        case Leaf(text) =>
          FeedOne(resolve, keyed, Scalar(text));
          FeedUsersSection(resolve, p, body.rest);
          assert SectionLines(body) == SectionLines(body.rest);
        case Map(props) =>
          FeedUser(resolve, p, body.key, props);
          var lines := FlatLines(body.key, props);
          FeedUsersSection(resolve, p.(policy := ApplyUsers(resolve, p.policy, lines)), body.rest);
          ApplyUsersConcat(resolve, p.policy, lines, SectionLines(body.rest));
      }
    }
  }

  lemma {:induction false} FeedPoolSection(resolve: Resolver, p: Parser, body: Entries)
    requires p.st == Pool && p.pending.None? && Flat(body)
    ensures Feed(resolve, p, EmitEntries(body)) == p.(policy := ApplyPool(resolve, p.policy, FlatLines("", body)))
    decreases body
  {
    if body.Cons? {
      var l := Line("", body.key, body.value.text);
      FeedEntry(resolve, p, body);
      FeedOne(resolve, p.(pending := Some(body.key)), Scalar(body.value.text));
      var q := p.(policy := ApplyPool(resolve, p.policy, [l]));
      assert [l][..0] == [];
      FeedPoolSection(resolve, q, body.rest);
      ApplyPoolConcat(resolve, p.policy, [l], FlatLines("", body.rest));
    }
  }

  /** Entries at the top level, or nested under unknown keys: afterwards the parser is where it was,
      except for what the lines below have written. */
  lemma {:induction false} FeedTop(resolve: Resolver, p: Parser, es: Entries)
    requires p.st == Top && p.pending.None? && p.curUser == "" && FileShape(es)
    ensures Feed(resolve, p, EmitEntries(es))
         == p.(policy := ApplyPool(resolve, ApplyUsers(resolve, p.policy, UserLines(es)), PoolLines(es)))
    decreases es, 0
  {
    if es.Cons? {
      FeedEntry(resolve, p, es);
      match es.value {
        case Leaf(text) =>
          FeedOne(resolve, p.(pending := Some(es.key)), Scalar(text));
          FeedTop(resolve, p, es.rest);
        case Map(body) =>
          var users, pool := UserLinesOf(es.key, body), PoolLinesOf(es.key, body);
          FeedTopMapping(resolve, p, es.key, body);
          FeedTop(resolve, p.(policy := ApplyPool(resolve, ApplyUsers(resolve, p.policy, users), pool)), es.rest);
          JoinLines(resolve, p.policy, users, pool, UserLines(es.rest), PoolLines(es.rest));
      }
    }
  }

  lemma {:induction false} FeedTopMapping(resolve: Resolver, p: Parser, key: string, body: Entries)
    requires p.st == Top && p.pending.None? && p.curUser == "" && MappingShape(key, body)
    ensures var users, pool := UserLinesOf(key, body), PoolLinesOf(key, body);
            Feed(resolve, p.(pending := Some(key)), Emit(Map(body)))
              == p.(policy := ApplyPool(resolve, ApplyUsers(resolve, p.policy, users), pool))
    decreases body, 1
  {
    FeedMap(resolve, p.(pending := Some(key)), body);
    if key == "users" {
      FeedUsersSection(resolve, p.(st := Users), body);
    } else if key == "pool" {
      FeedPoolSection(resolve, p.(st := Pool), body);
    } else {
      FeedTop(resolve, p, body);
    }
  }

  lemma JoinLines(resolve: Resolver, policy: Policy, u1: seq<Line>, p1: seq<Line>, u2: seq<Line>, p2: seq<Line>)
    ensures ApplyPool(resolve, ApplyUsers(resolve, ApplyPool(resolve, ApplyUsers(resolve, policy, u1), p1), u2), p2)
         == ApplyPool(resolve, ApplyUsers(resolve, policy, u1 + u2), p1 + p2)
  {
    var a := ApplyUsers(resolve, policy, u1);
    ApplyCommutes(resolve, a, u2, p1);
    ApplyUsersConcat(resolve, policy, u1, u2);
    ApplyPoolConcat(resolve, ApplyUsers(resolve, a, u2), p1, p2);
  }

  lemma {:induction false} ApplyReads(resolve: Resolver, users: seq<Line>, pool: seq<Line>)
    ensures Says(resolve, users, pool,
                 ApplyPool(resolve, ApplyUsers(resolve, Policy(map[], None, None), users), pool))
  {
    var empty := Policy(map[], None, None);
    if pool != [] {
      ApplyReads(resolve, users, pool[..|pool| - 1]);
      ApplyCommutes(resolve, ApplyUsers(resolve, empty, users), [], pool);
      ApplyCommutes(resolve, ApplyUsers(resolve, empty, users), [], pool[..|pool| - 1]);
    } else if users != [] {
      ApplyReads(resolve, users[..|users| - 1], []);
    }
  }

  lemma {:induction false} RunFeeds(resolve: Resolver, p: Parser, body: seq<Event>)
    requires forall i | 0 <= i < |body| :: body[i] != StreamEnd && body[i] != ParseError
    ensures Run(resolve, p, body + [StreamEnd]) == (true, Feed(resolve, p, body))
    decreases |body|
  {
    var events := body + [StreamEnd];
    if body != [] {
      assert events[0] == body[0] && events[1..] == body[1..] + [StreamEnd];
      RunFeeds(resolve, Step(resolve, p, body[0]), body[1..]);
    }
  }

  lemma EmitNeverEnds(n: Node)
    ensures forall i | 0 <= i < |Emit(n)| :: Emit(n)[i] != StreamEnd && Emit(n)[i] != ParseError
    decreases n, 1
  {
    if n.Map? {
      EmitEntriesNeverEnd(n.entries);
    }
  }

  lemma EmitEntriesNeverEnd(es: Entries)
    ensures forall i | 0 <= i < |EmitEntries(es)| :: EmitEntries(es)[i] != StreamEnd && EmitEntries(es)[i] != ParseError
    decreases es
  {
    if es.Cons? {
      EmitNeverEnds(es.value);
      EmitEntriesNeverEnd(es.rest);
    }
  }

  /** A printed file is parsed to its end, whatever is in it. */
  lemma RunFile(resolve: Resolver, root: Entries)
    ensures Run(resolve, Initial(map[]), EmitFile(root))
         == (true, OnMappingEnd(Feed(resolve, Initial(map[]), EmitEntries(root))))
  {
    var p := Initial(map[]);
    var body := [Other, Other] + Emit(Map(root)) + [Other];
    EmitNeverEnds(Map(root));
    assert EmitFile(root) == body + [StreamEnd];
    RunFeeds(resolve, p, body);
    FeedConcat(resolve, p, [Other, Other] + Emit(Map(root)), [Other]);
    FeedConcat(resolve, p, [Other, Other], Emit(Map(root)));
    assert [Other, Other] == [Other] + [Other];
    FeedConcat(resolve, p, [Other], [Other]);
    FeedOne(resolve, p, Other);
    FeedMap(resolve, p, root);
    FeedOne(resolve, Feed(resolve, p, Emit(Map(root))), Other);
  }

  lemma RunPrinted(resolve: Resolver, root: Entries)
    requires FileShape(root)
    ensures var p := Initial(map[]);
            var read := ApplyPool(resolve, ApplyUsers(resolve, p.policy, UserLines(root)), PoolLines(root));
            Run(resolve, p, EmitFile(root)) == (true, p.(policy := read))
  {
    RunFile(resolve, root);
    FeedTop(resolve, Initial(map[]), root);
  }

  /** Parsing a printed policy file succeeds, ends at the top level with nothing pending, and yields
      exactly what the file says. */
  lemma ParserUndoesPrinter(resolve: Resolver, root: Entries)
    requires FileShape(root)
    ensures var (ok, p) := Run(resolve, Initial(map[]), EmitFile(root));
            && ok && p.st == Top && p.pending.None? && p.curUser == ""
            && Says(resolve, UserLines(root), PoolLines(root), p.policy)
            && Load(resolve, Some(EmitFile(root))) == Some(p.policy)
  {
    RunPrinted(resolve, root);
    ApplyReads(resolve, UserLines(root), PoolLines(root));
  }

  /** The file with one user and a pool, event by event: the user gets the address, under the name or its
      first 255 bytes, and the pool its two ends. */
  lemma SmallestFile(resolve: Resolver, name: string, ip: string, start: string, end: string)
    ensures Load(resolve, Some([
                Other, Other, MappingStart,
                Scalar("users"), MappingStart,
                Scalar(name), MappingStart, Scalar("ip"), Scalar(ip), MappingEnd,
                MappingEnd,
                Scalar("pool"), MappingStart, Scalar("start"), Scalar(start), Scalar("end"), Scalar(end), MappingEnd,
                MappingEnd, Other, StreamEnd]))
         == Some(Policy(if resolve(ip).None? then map[]
                        else map[(if |name| < 256 then name else name[..255]) := resolve(ip).value],
                        resolve(start), resolve(end)))
  {
    SmallestFileEvents(name, ip, start, end);
    SmallestFileSays(name, ip, start, end);
    var empty := Policy(map[], None, None);
    SmallestFileReads(resolve, empty, Line(name, "ip", ip), Line("", "start", start), Line("", "end", end));
    RunPrinted(resolve, SmallestRoot(name, ip, start, end));
    hide Run, EmitFile, ApplyUsers, ApplyPool, FileShape, UserLines, PoolLines;
  }

  function SmallestRoot(name: string, ip: string, start: string, end: string): Entries {
    Cons("users", Map(Cons(name, Map(Cons("ip", Leaf(ip), Nil)), Nil)),
         Cons("pool", Map(Cons("start", Leaf(start), Cons("end", Leaf(end), Nil))), Nil))
  }

  lemma SmallestFileEvents(name: string, ip: string, start: string, end: string)
    ensures EmitFile(SmallestRoot(name, ip, start, end)) == [
                Other, Other, MappingStart,
                Scalar("users"), MappingStart,
                Scalar(name), MappingStart, Scalar("ip"), Scalar(ip), MappingEnd,
                MappingEnd,
                Scalar("pool"), MappingStart, Scalar("start"), Scalar(start), Scalar("end"), Scalar(end), MappingEnd,
                MappingEnd, Other, StreamEnd]
  {
    var entry, ends := Cons("ip", Leaf(ip), Nil), Cons("end", Leaf(end), Nil);
    var users, both := Cons(name, Map(entry), Nil), Cons("start", Leaf(start), ends);
    PairEvents("ip", ip, Nil);
    PairEvents("end", end, Nil);
    PairEvents("start", start, ends);
    SectionEvents(name, entry, Nil);
    SectionEvents("pool", both, Nil);
    SectionEvents("users", users, Cons("pool", Map(both), Nil));
    NoEvents();
    hide EmitEntries;
  }

  lemma NoEvents()
    ensures EmitEntries(Nil) == []
  {
  }

  lemma PairEvents(key: string, text: string, rest: Entries)
    ensures EmitEntries(Cons(key, Leaf(text), rest)) == [Scalar(key), Scalar(text)] + EmitEntries(rest)
  {
  }

  lemma SectionEvents(key: string, body: Entries, rest: Entries)
    ensures EmitEntries(Cons(key, Map(body), rest))
         == [Scalar(key), MappingStart] + EmitEntries(body) + [MappingEnd] + EmitEntries(rest)
  {
  }

  lemma SmallestFileSays(name: string, ip: string, start: string, end: string)
    ensures var root := SmallestRoot(name, ip, start, end);
            && FileShape(root)
            && UserLines(root) == [Line(name, "ip", ip)]
            && PoolLines(root) == [Line("", "start", start), Line("", "end", end)]
  {
    var entry, ends := Cons("ip", Leaf(ip), Nil), Cons("end", Leaf(end), Nil);
    var users, both := Cons(name, Map(entry), Nil), Cons("start", Leaf(start), ends);
    var pool := Cons("pool", Map(both), Nil);
    assert Flat(entry) && Flat(ends) && Flat(both) && UsersShape(Nil) && UsersShape(users);
    assert FileShape(Nil) && MappingShape("pool", both) && FileShape(pool) && MappingShape("users", users);
    assert FlatLines(name, entry) == [Line(name, "ip", ip)] && SectionLines(users) == [Line(name, "ip", ip)];
    assert FlatLines("", ends) == [Line("", "end", end)];
    assert FlatLines("", both) == [Line("", "start", start), Line("", "end", end)];
    assert UserLines(pool) == [] && PoolLines(pool) == FlatLines("", both);
  }

  lemma SmallestFileReads(resolve: Resolver, policy: Policy, user: Line, first: Line, last: Line)
    requires user.key == "ip" && first.key == "start" && last.key == "end"
    ensures ApplyPool(resolve, ApplyUsers(resolve, policy, [user]), [first, last])
         == Policy(if resolve(user.text).None? then policy.users
                   else policy.users[Stored(user.name) := resolve(user.text).value],
                   resolve(first.text), resolve(last.text))
  {
    OneUserLine(resolve, policy, user);
    var granted := ApplyUser(resolve, policy, user);
    assert [first, last] == [first] + [last];
    ApplyPoolConcat(resolve, granted, [first], [last]);
    OnePoolLine(resolve, granted, first);
    OnePoolLine(resolve, granted.(start := resolve(first.text)), last);
  }

  lemma OneUserLine(resolve: Resolver, policy: Policy, l: Line)
    ensures ApplyUsers(resolve, policy, [l]) == ApplyUser(resolve, policy, l)
  {
    assert [l][..0] == [];
  }

  lemma OnePoolLine(resolve: Resolver, policy: Policy, l: Line)
    ensures l.key == "start" ==> ApplyPool(resolve, policy, [l]) == policy.(start := resolve(l.text))
    ensures l.key == "end" ==> ApplyPool(resolve, policy, [l]) == policy.(end := resolve(l.text))
  {
    assert [l][..0] == [];
  }

  /** Mappings of any depth under an unknown key change nothing, as long as none of those inside is
      called `users` or `pool`. */
  lemma {:induction false} UnknownKeysAreIgnored(resolve: Resolver, p: Parser, key: string, body: Entries)
    requires p.st == Top && p.pending.None? && p.curUser == ""
    requires key != "users" && key != "pool" && Neutral(body)
    ensures Feed(resolve, p, [Scalar(key)] + Emit(Map(body))) == p
  {
    var es := Cons(key, Map(body), Nil);
    NeutralSaysNothing(es);
    FeedTop(resolve, p, es);
    assert EmitEntries(es) == [Scalar(key)] + Emit(Map(body));
  }

  lemma {:induction false} NeutralSaysNothing(es: Entries)
    requires Neutral(es)
    ensures FileShape(es) && UserLines(es) == [] && PoolLines(es) == []
  {
    if es.Cons? {
      NeutralSaysNothing(es.rest);
      if es.value.Map? {
        NeutralSaysNothing(es.value.entries);
      }
    }
  }

  /** The condition is needed: sections are honoured at any depth.  Wrapping a whole file in an
      unknown key does not change what is read from it. */
  lemma NestedSectionsAreHonoured(resolve: Resolver, key: string, root: Entries)
    requires FileShape(root) && key != "users" && key != "pool"
    ensures Load(resolve, Some(EmitFile(Cons(key, Map(root), Nil)))) == Load(resolve, Some(EmitFile(root)))
  {
    var wrapped := Cons(key, Map(root), Nil);
    assert UserLines(wrapped) == UserLines(root) + UserLines(Nil) == UserLines(root);
    assert PoolLines(wrapped) == PoolLines(root) + PoolLines(Nil) == PoolLines(root);
    RunPrinted(resolve, root);
    RunPrinted(resolve, wrapped);
  }

  // ---- a mapping inside the entry of a user ----

  function Append(a: Entries, b: Entries): Entries {
    if a.Nil? then b else Cons(a.key, a.value, Append(a.rest, b))
  }

  /** The scalars of `es` read one off: the key before it with its first key, each value with the key that
      follows. */
  function Shifted(name: string, key: string, es: Entries): seq<Line>
    requires Flat(es)
    decreases es
  {
    if es.Nil? then [] else [Line(name, key, es.key)] + Shifted(name, es.value.text, es.rest)
  }

  /** The scalar that is then left without a partner. */
  function LeftOver(key: string, es: Entries): string
    requires Flat(es)
    decreases es
  {
    if es.Nil? then key else LeftOver(es.value.text, es.rest)
  }

  /** The entry of a user with a mapping in it. */
  function BrokenEntry(before: Entries, key: string, inner: Entries, after: Entries): Entries {
    Append(before, Cons(key, Map(inner), after))
  }

  /** What is read from it: the lines before the mapping as they stand, those inside it one off, and
      nothing of what follows. */
  function BrokenLines(name: string, before: Entries, key: string, inner: Entries): seq<Line>
    requires Flat(before) && Flat(inner)
  {
    FlatLines(name, before) + Shifted(name, key, inner)
  }

  lemma FeedTwo(resolve: Resolver, p: Parser, k: string, v: string, rest: seq<Event>)
    ensures Feed(resolve, p, [Scalar(k), Scalar(v)] + rest)
         == Feed(resolve, Step(resolve, Step(resolve, p, Scalar(k)), Scalar(v)), rest)
  {
    assert [Scalar(k), Scalar(v)] == [Scalar(k)] + [Scalar(v)];
    FeedConcat(resolve, p, [Scalar(k), Scalar(v)], rest);
    FeedConcat(resolve, p, [Scalar(k)], [Scalar(v)]);
    FeedOne(resolve, p, Scalar(k));
    FeedOne(resolve, Step(resolve, p, Scalar(k)), Scalar(v));
  }

  /** The mapping itself: its start is not noticed, so that its scalars are read one off. */
  lemma {:induction false} FeedShifted(resolve: Resolver, p: Parser, name: string, key: string, es: Entries)
    requires p.st == User && p.curUser == Snprintf(NAME_BUF, name) && p.pending == Some(key) && Flat(es)
    ensures Feed(resolve, p, EmitEntries(es))
         == p.(pending := Some(LeftOver(key, es)), policy := ApplyUsers(resolve, p.policy, Shifted(name, key, es)))
    decreases es
  {
    if es.Cons? {
      var l, text := Line(name, key, es.key), es.value.text;
      var q := p.(pending := Some(text), policy := ApplyUser(resolve, p.policy, l));
      assert EmitEntries(es) == [Scalar(es.key), Scalar(text)] + EmitEntries(es.rest);
      FeedTwo(resolve, p, es.key, text, EmitEntries(es.rest));
      FeedShifted(resolve, q, name, text, es.rest);
      ApplyUsersConcat(resolve, p.policy, [l], Shifted(name, text, es.rest));
      assert [l][..0] == [];
    }
  }

  /** After it: the end of the mapping was taken for the end of the user, and nothing is read any more. */
  lemma {:induction false} FeedUnread(resolve: Resolver, p: Parser, key: string, es: Entries)
    requires p.st == Users && p.pending == Some(key) && Flat(es)
    ensures Feed(resolve, p, EmitEntries(es)) == p.(pending := Some(LeftOver(key, es)))
    decreases es
  {
    if es.Cons? {
      var text := es.value.text;
      assert EmitEntries(es) == [Scalar(es.key), Scalar(text)] + EmitEntries(es.rest);
      FeedTwo(resolve, p, es.key, text, EmitEntries(es.rest));
      FeedUnread(resolve, p.(pending := Some(text)), text, es.rest);
    }
  }

  lemma {:induction false} EmitAppend(a: Entries, b: Entries)
    ensures EmitEntries(Append(a, b)) == EmitEntries(a) + EmitEntries(b)
  {
    if a.Cons? {
      EmitAppend(a.rest, b);
    }
  }

  /** Exactly what an entry with a mapping in it does: the parser leaves the user too early, is one scalar
      off, and has read the lines above. */
  lemma FeedBrokenEntry(resolve: Resolver, p: Parser, name: string, before: Entries, key: string, inner: Entries,
                        after: Entries)
    requires p.st == User && p.pending.None? && p.curUser == Snprintf(NAME_BUF, name)
    requires Flat(before) && Flat(inner) && Flat(after)
    ensures Feed(resolve, p, EmitEntries(BrokenEntry(before, key, inner, after)))
         == Parser(Users, Some(LeftOver(LeftOver(key, inner), after)), "",
                   ApplyUsers(resolve, p.policy, BrokenLines(name, before, key, inner)))
  {
    var tail := Cons(key, Map(inner), after);
    EmitAppend(before, tail);
    FeedConcat(resolve, p, EmitEntries(before), EmitEntries(tail));
    FeedUserBody(resolve, p, name, before);
    var q := p.(policy := ApplyUsers(resolve, p.policy, FlatLines(name, before)));
    FeedEntry(resolve, q, tail);
    FeedMap(resolve, q.(pending := Some(key)), inner);
    FeedShifted(resolve, q.(pending := Some(key)), name, key, inner);
    ApplyUsersConcat(resolve, p.policy, FlatLines(name, before), Shifted(name, key, inner));
    var left := LeftOver(key, inner);
    var lines := BrokenLines(name, before, key, inner);
    FeedUnread(resolve, Parser(Users, Some(left), "", ApplyUsers(resolve, p.policy, lines)), left, after);
  }

  /** A `users` section whose last entry is broken. */
  function BrokenUsers(users: Entries, name: string, entry: Entries): Entries {
    Append(users, Cons(name, Map(entry), Nil))
  }

  /** Such a section leaves a scalar behind, at the top level. */
  lemma FeedBrokenUsers(resolve: Resolver, p: Parser, users: Entries, name: string,
                        before: Entries, key: string, inner: Entries, after: Entries)
    requires p.st == Top && p.pending.None? && p.curUser == ""
    requires UsersShape(users) && Flat(before) && Flat(inner) && Flat(after)
    ensures var entry := BrokenEntry(before, key, inner, after);
            Feed(resolve, p.(pending := Some("users")), Emit(Map(BrokenUsers(users, name, entry))))
              == Parser(Top, Some(LeftOver(LeftOver(key, inner), after)), "",
                        ApplyUsers(resolve, p.policy, SectionLines(users) + BrokenLines(name, before, key, inner)))
  {
    var entry := BrokenEntry(before, key, inner, after);
    var last := Cons(name, Map(entry), Nil);
    FeedMap(resolve, p.(pending := Some("users")), BrokenUsers(users, name, entry));
    EmitAppend(users, last);
    FeedConcat(resolve, p.(st := Users), EmitEntries(users), EmitEntries(last));
    FeedUsersSection(resolve, p.(st := Users), users);
    var q := p.(st := Users, policy := ApplyUsers(resolve, p.policy, SectionLines(users)));
    FeedEntry(resolve, q, last);
    FeedMap(resolve, q.(pending := Some(name)), entry);
    FeedBrokenEntry(resolve, q.(st := User, curUser := Snprintf(NAME_BUF, name)), name, before, key, inner, after);
    ApplyUsersConcat(resolve, p.policy, SectionLines(users), BrokenLines(name, before, key, inner));
  }

  /** The scalar left behind swallows the next key, so that its mapping counts as one under an unknown
      key; what follows is read as usual. */
  lemma FeedSwallowed(resolve: Resolver, p: Parser, key: string, body: Entries, rest: Entries)
    requires p.st == Top && p.pending.Some? && p.curUser == "" && FileShape(body) && FileShape(rest)
    ensures Feed(resolve, p, EmitEntries(Cons(key, Map(body), rest)))
         == p.(pending := None,
               policy := ApplyPool(resolve, ApplyUsers(resolve, p.policy, UserLines(body) + UserLines(rest)),
                                   PoolLines(body) + PoolLines(rest)))
  {
    hide ApplyUsers, ApplyPool, UserLines, PoolLines, FileShape, Feed, Emit;
    var q := p.(pending := None);
    var r := q.(policy := ApplyPool(resolve, ApplyUsers(resolve, p.policy, UserLines(body)), PoolLines(body)));
    FeedConcat(resolve, p, [Scalar(key)] + Emit(Map(body)), EmitEntries(rest));
    FeedConcat(resolve, p, [Scalar(key)], Emit(Map(body)));
    FeedOne(resolve, p, Scalar(key));
    FeedMap(resolve, q, body);
    FeedTop(resolve, q, body);
    FeedTop(resolve, r, rest);
    JoinLines(resolve, p.policy, UserLines(body), PoolLines(body), UserLines(rest), PoolLines(rest));
  }

  /** The shape of a policy file excludes a mapping inside the entry of a user, and this is what it does
      instead.  The lines before it are read, those inside it one off, those after it not at all; and the
      key of the next section is lost, so that the section is not read as one. */
  lemma BrokenEntryIsRead(resolve: Resolver, users: Entries, name: string, before: Entries, key: string,
                          inner: Entries, after: Entries, next: string, body: Entries, rest: Entries)
    requires UsersShape(users) && Flat(before) && Flat(inner) && Flat(after) && FileShape(body) && FileShape(rest)
    ensures var entry := BrokenEntry(before, key, inner, after);
            var root := Cons("users", Map(BrokenUsers(users, name, entry)), Cons(next, Map(body), rest));
            && !FileShape(root)
            && Load(resolve, Some(EmitFile(root))).Some?
            && Says(resolve,
                    SectionLines(users) + BrokenLines(name, before, key, inner) + (UserLines(body) + UserLines(rest)),
                    PoolLines(body) + PoolLines(rest),
                    Load(resolve, Some(EmitFile(root))).value)
  {
    hide ApplyUsers, ApplyPool, UserLines, PoolLines, SectionLines, BrokenLines, LeftOver, Feed, Run, Says, EmitFile;
    hide Emit, EmitEntries, BrokenEntry, BrokenUsers, Flat, UsersShape, Append;
    var entry, empty := BrokenEntry(before, key, inner, after), Policy(map[], None, None);
    var follow := Cons(next, Map(body), rest);
    var root := Cons("users", Map(BrokenUsers(users, name, entry)), follow);
    var first := SectionLines(users) + BrokenLines(name, before, key, inner);
    BrokenShape(users, name, before, key, inner, after);
    RunFile(resolve, root);
    FeedEntry(resolve, Initial(map[]), root);
    FeedBrokenUsers(resolve, Initial(map[]), users, name, before, key, inner, after);
    var left := Some(LeftOver(LeftOver(key, inner), after));
    FeedSwallowed(resolve, Parser(Top, left, "", ApplyUsers(resolve, empty, first)), next, body, rest);
    ApplyUsersConcat(resolve, empty, first, UserLines(body) + UserLines(rest));
    ApplyReads(resolve, first + (UserLines(body) + UserLines(rest)), PoolLines(body) + PoolLines(rest));
  }

  lemma {:induction false} BrokenShape(users: Entries, name: string, before: Entries, key: string, inner: Entries,
                                       after: Entries)
    requires Flat(before)
    ensures !UsersShape(BrokenUsers(users, name, BrokenEntry(before, key, inner, after)))
    decreases users, before
  {
    if users.Cons? {
      BrokenShape(users.rest, name, before, key, inner, after);
    } else if before.Cons? {
      BrokenShape(users, name, before.rest, key, inner, after);
    }
  }

  /** In particular a pool that follows is lost: the allocator comes up without one. */
  lemma PoolIsLost(resolve: Resolver, users: Entries, name: string, before: Entries, key: string,
                   inner: Entries, after: Entries, pool: Entries)
    requires UsersShape(users) && Flat(before) && Flat(inner) && Flat(after) && Flat(pool)
    ensures var entry := BrokenEntry(before, key, inner, after);
            var root := Cons("users", Map(BrokenUsers(users, name, entry)), Cons("pool", Map(pool), Nil));
            && Load(resolve, Some(EmitFile(root))).Some?
            && var policy := Load(resolve, Some(EmitFile(root))).value; policy.start.None? && policy.end.None?
  {
    FlatSaysNothing(pool);
    BrokenEntryIsRead(resolve, users, name, before, key, inner, after, "pool", pool, Nil);
  }

  lemma {:induction false} FlatSaysNothing(es: Entries)
    requires Flat(es)
    ensures FileShape(es) && UserLines(es) == [] && PoolLines(es) == []
  {
    if es.Cons? {
      FlatSaysNothing(es.rest);
    }
  }

  /** And the address of a user whose entry begins with a mapping is lost, even a usable one. */
  lemma NestedUserEntryIsLost(resolve: Resolver, name: string, key: string, text: string, pool: Entries)
    requires Flat(pool)
    ensures var entry := Cons(key, Map(Nil), Cons("ip", Leaf(text), Nil));
            var root := Cons("users", Map(Cons(name, Map(entry), Nil)), Cons("pool", Map(pool), Nil));
            Load(resolve, Some(EmitFile(root))) == Some(Policy(map[], None, None))
  {
    var address := Cons("ip", Leaf(text), Nil);
    var entry := BrokenEntry(Nil, key, Nil, address);
    assert entry == Cons(key, Map(Nil), address) && BrokenUsers(Nil, name, entry) == Cons(name, Map(entry), Nil);
    FlatSaysNothing(pool);
    BrokenEntryIsRead(resolve, Nil, name, Nil, key, Nil, address, "pool", pool, Nil);
  }
}
