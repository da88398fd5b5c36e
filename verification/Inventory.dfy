/** Members and their derived identity: an id is `host:port`, and an inventory never repeats one. */
module Inventory {
  import opened Prelude

  /** `name` is the entry's label. */
  datatype Proxy = Proxy(id: string, host: string, port: int, name: string)

  /** A value of an entry as `int` takes it. */
  datatype PortField = Missing | Unreadable | Number(value: int)

  /** A parsed entry: what its fields read as, if it is a mapping at all. */
  datatype Entry = NotAMapping | Mapping(host: Option<string>, port: PortField, name: Option<string>)

  datatype Loaded<+T> = Ok(value: T) | BadEntry | UnreadablePort | BadHost | BadPort | DuplicateId(id: string)

  /** What Python counts as white space, by code point. */
  predicate IsSpace(c: char) {
    var n := c as int;
    9 <= n <= 13 || 28 <= n <= 32 || n == 133 || n == 160 || n == 5760 || 8192 <= n <= 8202
    || n == 8232 || n == 8233 || n == 8239 || n == 8287 || n == 12288
  }

  function StripLeft(s: string): (r: string)
    ensures r == [] || !IsSpace(r[0])
    ensures |r| <= |s| && r == s[|s| - |r|..] && forall i | 0 <= i < |s| - |r| :: IsSpace(s[i])
  {
    if s != [] && IsSpace(s[0]) then StripLeft(s[1..]) else s
  }

  function StripRight(s: string): (r: string)
    ensures r == [] || !IsSpace(r[|r| - 1])
    ensures r <= s && forall i | |r| <= i < |s| :: IsSpace(s[i])
  {
    if s != [] && IsSpace(s[|s| - 1]) then StripRight(s[..|s| - 1]) else s
  }

  /** The text between the blanks at either end. */
  function Strip(s: string): (r: string)
    ensures r == [] || (!IsSpace(r[0]) && !IsSpace(r[|r| - 1]))
  {
    StripRight(StripLeft(s))
  }

  predicate AllSpace(s: string) {
    forall i | 0 <= i < |s| :: IsSpace(s[i])
  }

  lemma Trimmed(s: string, left: string, right: string) returns (k: nat, m: nat)
    requires |left| <= |s| && left == s[|s| - |left|..] && AllSpace(s[..|s| - |left|])
    requires right <= left && AllSpace(left[|right|..])
    ensures k <= m <= |s| && right == s[k..m] && AllSpace(s[..k]) && AllSpace(s[m..])
  {
    k, m := |s| - |left|, |s| - |left| + |right|;
    assert left[|right|..] == s[m..];
    assert left[..|right|] == s[k..m];
  }

  /** What is stripped is a stretch of the text with nothing but white space before and after it. */
  lemma StripIs(s: string) returns (k: nat, m: nat)
    ensures k <= m <= |s| && Strip(s) == s[k..m] && AllSpace(s[..k]) && AllSpace(s[m..])
  {
    k, m := Trimmed(s, StripLeft(s), StripRight(StripLeft(s)));
  }

  /** Blanks, tabs and line ends are white space, and printable ASCII is not. */
  lemma WhiteSpace(c: char)
    ensures c in " \t\n\r" ==> IsSpace(c)
    ensures '!' <= c <= '~' ==> !IsSpace(c)
  {
  }

  predicate Contains(s: string, part: string) {
    exists i :: 0 <= i <= |s| && part <= s[i..]
  }

  ghost predicate OccursAt(s: string, part: string, i: nat) {
    i + |part| <= |s| && s[i..i + |part|] == part
  }

  lemma ContainsIff(s: string, part: string)
    ensures Contains(s, part) <==> exists i: nat :: OccursAt(s, part, i)
  {
    if Contains(s, part) {
      var i :| 0 <= i <= |s| && part <= s[i..];
      assert s[i..i + |part|] == s[i..][..|part|] == part;
      assert OccursAt(s, part, i);
    }
    if i: nat :| OccursAt(s, part, i) {
      assert s[i..][..|part|] == part;
    }
  }

  function Decimal(n: nat): string {
    if n < 10 then [Digit(n)] else Decimal(n / 10) + [Digit(n % 10)]
  }

  function Digit(d: nat): (c: char)
    requires d < 10
    ensures '0' <= c <= '9' && c as int == '0' as int + d
  {
    ['0', '1', '2', '3', '4', '5', '6', '7', '8', '9'][d]
  }

  function ProxyId(host: string, port: nat): string {
    host + ":" + Decimal(port)
  }

  lemma {:induction false} DecimalDigits(n: nat)
    ensures Decimal(n) != [] && ':' !in Decimal(n)
  {
    if n >= 10 {
      DecimalDigits(n / 10);
    }
  }

  lemma DigitInjective(a: nat, b: nat)
    requires a < 10 && b < 10 && Digit(a) == Digit(b)
    ensures a == b
  {
  }

  lemma {:induction false} DecimalInjective(m: nat, n: nat)
    requires Decimal(m) == Decimal(n)
    ensures m == n
  {
    var s, t := Decimal(m), Decimal(n);
    DecimalDigits(m / 10);
    DecimalDigits(n / 10);
    assert s[|s| - 1] == Digit(m % 10) && t[|t| - 1] == Digit(n % 10);
    DigitInjective(m % 10, n % 10);
    if m >= 10 && n >= 10 {
      assert Decimal(m / 10) == s[..|s| - 1] && Decimal(n / 10) == t[..|t| - 1];
      DecimalInjective(m / 10, n / 10);
    }
  }

  /** The number that decimal digits stand for. */
  function ValueOf(digits: string): int {
    if digits == [] then 0
    else 10 * ValueOf(digits[..|digits| - 1]) + digits[|digits| - 1] as int - '0' as int
  }

  /** A number is written in decimal, without leading zeros. */
  lemma {:induction false} DecimalReads(n: nat)
    ensures ValueOf(Decimal(n)) == n && Decimal(n) != [] && (n > 0 ==> Decimal(n)[0] != '0')
    ensures forall c | c in Decimal(n) :: '0' <= c <= '9'
  {
    if n >= 10 {
      DecimalReads(n / 10);
      var s := Decimal(n);
      assert s[..|s| - 1] == Decimal(n / 10);
    } else {
      assert Decimal(n)[..0] == [];
    }
  }

  /** An id is the host, a colon and the port in decimal. */
  lemma IdIs(host: string, port: nat)
    ensures var id := ProxyId(host, port);
            |id| > |host| + 1 && id[..|host|] == host && id[|host|] == ':' && ValueOf(id[|host| + 1..]) == port
  {
    DecimalReads(port);
    assert ProxyId(host, port)[|host| + 1..] == Decimal(port);
  }

  /** Identity is derived and loses nothing: equal ids mean the same host and port, colons in hosts included. */
  lemma IdDeterminesEndpoint(h: string, p: nat, k: string, q: nat)
    requires ProxyId(h, p) == ProxyId(k, q)
    ensures h == k && p == q
  {
    var s, a, b := ProxyId(h, p), Decimal(p), Decimal(q);
    DecimalDigits(p);
    DecimalDigits(q);
    LastColon(s, h, a, k, b);
    assert a == s[|h| + 1..] && b == s[|k| + 1..];
    assert h == s[..|h|] && k == s[..|k|];
    DecimalInjective(p, q);
  }

  lemma LastColon(s: string, h: string, a: string, k: string, b: string)
    requires s == h + ":" + a == k + ":" + b && ':' !in a && ':' !in b
    ensures |h| == |k|
  {
    assert s[|h|] == ':' && s[|k|] == ':';
    assert forall i | |h| < i < |s| :: s[i] == a[i - |h| - 1];
    assert forall i | |k| < i < |s| :: s[i] == b[i - |k| - 1];
  }

  /** A host without scheme and without user information. */
  predicate Bare(host: string) {
    host != [] && !Contains(host, "://") && !Contains(host, "@")
  }

  lemma HasAtIff(host: string)
    ensures Contains(host, "@") <==> '@' in host
  {
    ContainsIff(host, "@");
    if '@' in host {
      var i :| 0 <= i < |host| && host[i] == '@';
      assert OccursAt(host, "@", i);
    }
    if i: nat :| OccursAt(host, "@", i) {
      assert host[i] == host[i..i + |"@"|][0];
    }
  }

  /** A bare host is a text that is not empty, without an `@` and without a `://`. */
  lemma BareIff(host: string)
    ensures Bare(host) <==> host != [] && '@' !in host && !exists i: nat :: OccursAt(host, "://", i)
  {
    HasAtIff(host);
    ContainsIff(host, "://");
  }

  /** A member is made exactly of a bare host and a port in range; blanks around the host and the name do not count. */
  function ProxyFromEndpoint(host: string, port: int, name: string): (r: Loaded<Proxy>)
    ensures r.Ok? <==> Bare(Strip(host)) && 1 <= port <= 65535
    ensures !Bare(Strip(host)) ==> r == BadHost
    ensures Bare(Strip(host)) && !(1 <= port <= 65535) ==> r == BadPort
    ensures r.Ok? ==>
              && r.value.host == Strip(host) && r.value.port == port >= 1 && r.value.id == ProxyId(r.value.host, port)
              && r.value.name == (if Strip(name) == [] then "default" else Strip(name))
  {
    var cleaned := Strip(host);
    if cleaned == [] || Contains(cleaned, "://") || Contains(cleaned, "@") then BadHost
    else if port < 1 || port > 65535 then BadPort
    else
      var stripped := Strip(name);
      Ok(Proxy(ProxyId(cleaned, port), cleaned, port, if stripped == [] then "default" else stripped))
  }

  function OrElse<T>(value: Option<T>, default: T): T {
    if value.Some? then value.value else default
  }

  /** The member of an entry; a missing host or port is as bad as an empty or zero one, a missing name is the default. */
  function MakeProxy(e: Entry): (r: Loaded<Proxy>)
    ensures !r.DuplicateId?
    ensures r.Ok? ==> DerivedId(r.value)
  {
    match e
    case NotAMapping => BadEntry
    case Mapping(host, port, name) =>
      match port
      case Unreadable => UnreadablePort
      case Missing => ProxyFromEndpoint(OrElse(host, ""), 0, OrElse(name, "default"))
      case Number(value) => ProxyFromEndpoint(OrElse(host, ""), value, OrElse(name, "default"))
  }

  /** An entry makes a member exactly if it is a mapping with a bare host and a number in range as its port. */
  lemma MadeIff(e: Entry)
    ensures MakeProxy(e).Ok? <==>
              e.Mapping? && e.host.Some? && Bare(Strip(e.host.value)) && e.port.Number? && 1 <= e.port.value <= 65535
    ensures MakeProxy(e) == BadEntry <==> e.NotAMapping?
    ensures MakeProxy(e) == UnreadablePort <==> e.Mapping? && e.port.Unreadable?
  {
    assert Strip("") == "";
  }

  /** An entry with a host and a port makes the member of that endpoint, under its label, or under `default` if it has none. */
  lemma MadeOf(host: string, port: int, name: Option<string>)
    ensures MakeProxy(Mapping(Some(host), Number(port), name))
            == ProxyFromEndpoint(host, port, if name.Some? then name.value else "default")
    ensures Strip("default") == "default"
  {
    StripDefault();
  }

  lemma StripDefault()
    ensures Strip("") == "" && Strip("default") == "default"
  {
    WhiteSpace("default"[0]);
    WhiteSpace("default"[6]);
    assert StripLeft("default") == "default" && StripRight("default") == "default";
  }

  /** The members of the entries, one by one. */
  function Made(entries: seq<Entry>): (made: seq<Loaded<Proxy>>)
    ensures |made| == |entries|
    ensures forall i | 0 <= i < |entries| :: made[i] == MakeProxy(entries[i])
    ensures AllDerived(made)
  {
    seq(|entries|, i requires 0 <= i < |entries| => MakeProxy(entries[i]))
  }

  predicate DerivedId(p: Proxy) {
    p.port >= 1 && p.id == ProxyId(p.host, p.port)
  }

  /** Every entry makes a member, and no two name the same endpoint. */
  ghost predicate Sound(made: seq<Loaded<Proxy>>) {
    && (forall i | 0 <= i < |made| :: made[i].Ok?)
    && forall i, j | 0 <= i < j < |made| :: DifferentEndpoints(made[i], made[j])
  }

  predicate DifferentEndpoints(a: Loaded<Proxy>, b: Loaded<Proxy>) {
    a.Ok? && b.Ok? ==> a.value.host != b.value.host || a.value.port != b.value.port
  }

  /** The first members made, in their order, with distinct ids. */
  ghost predicate Added(made: seq<Loaded<Proxy>>, proxies: seq<Proxy>) {
    && |proxies| <= |made|
    && (forall i | 0 <= i < |proxies| :: made[i] == Ok(proxies[i]))
    && (forall i, j | 0 <= i < j < |proxies| :: proxies[i].id != proxies[j].id)
  }

  /** The set of ids seen so far is that of the members added. */
  ghost predicate Seen(proxies: seq<Proxy>, seen: set<string>) {
    && (forall j | 0 <= j < |proxies| :: proxies[j].id in seen)
    && (forall id | id in seen :: exists j :: 0 <= j < |proxies| && proxies[j].id == id)
  }

  /** Why an entry that follows sound ones cannot be added: its own error, or else its id is taken. */
  function Failure(made: Loaded<Proxy>): Loaded<seq<Proxy>> {
    match made
    case Ok(proxy) => DuplicateId(proxy.id)
    case BadEntry => BadEntry
    case UnreadablePort => UnreadablePort
    case BadHost => BadHost
    case BadPort => BadPort
    case DuplicateId(id) => DuplicateId(id)
  }

  /** Entry i is the first that cannot be added, and r says why. */
  ghost predicate FailsAt(made: seq<Loaded<Proxy>>, i: nat, r: Loaded<seq<Proxy>>) {
    i < |made| && Sound(made[..i]) && !Sound(made[..i + 1]) && r == Failure(made[i])
  }

  ghost predicate AllDerived(made: seq<Loaded<Proxy>>) {
    forall i | 0 <= i < |made| && made[i].Ok? :: DerivedId(made[i].value)
  }

  /** One turn of the loop: the member joins the list, or the load fails. */
  method AddMade(made: Loaded<Proxy>, proxies: seq<Proxy>, seen: set<string>, ghost all: seq<Loaded<Proxy>>)
    returns (failure: Option<Loaded<seq<Proxy>>>, more: seq<Proxy>, known: set<string>)
    requires |proxies| < |all| && all[|proxies|] == made && AllDerived(all)
    requires Added(all, proxies) && Seen(proxies, seen)
    ensures failure.None? ==> |more| == |proxies| + 1 && Added(all, more) && Seen(more, known)
    ensures failure.Some? ==> !failure.value.Ok? && FailsAt(all, |proxies|, failure.value) && !Sound(all)
  {
    more, known := proxies, seen;
    if !made.Ok? {
      FirstFailure(all, proxies);
      return Some(Failure(made)), more, known;
    }
    if made.value.id in seen {
      RepeatIsUnsound(all, proxies, seen, made.value);
      FirstFailure(all, proxies);
      return Some(DuplicateId(made.value.id)), more, known;
    }
    AddOne(all, proxies, seen, made.value);
    return None, proxies + [made.value], seen + {made.value.id};
  }

  /**
   * The loop over the parsed entries: it succeeds exactly on sound inventories, and keeps their
   * order; otherwise it reports the first entry that is invalid or repeats an endpoint.
   */
  method LoadInventory(entries: seq<Entry>) returns (r: Loaded<seq<Proxy>>)
    ensures r.Ok? <==> Sound(Made(entries))
    ensures r.Ok? ==> |r.value| == |entries| && Added(Made(entries), r.value)
    ensures !r.Ok? ==> exists i: nat :: FailsAt(Made(entries), i, r)
  {
    var proxies: seq<Proxy> := [];
    var seen: set<string> := {};
    ghost var all := Made(entries);
    for i := 0 to |entries|
      invariant |proxies| == i && Added(all, proxies) && Seen(proxies, seen)
    {
      var failure, more, known := AddMade(MakeProxy(entries[i]), proxies, seen, all);
      if failure.Some? {
        return failure.value;
      }
      proxies, seen := more, known;
    }
    AddedIsSound(all, proxies);
    assert all[..|entries|] == all;
    r := Ok(proxies);
  }

  lemma AddOne(made: seq<Loaded<Proxy>>, proxies: seq<Proxy>, seen: set<string>, proxy: Proxy)
    requires Added(made, proxies) && Seen(proxies, seen)
    requires |proxies| < |made| && made[|proxies|] == Ok(proxy) && proxy.id !in seen
    ensures Added(made, proxies + [proxy]) && Seen(proxies + [proxy], seen + {proxy.id})
  {
    var more := proxies + [proxy];
    forall id | id in seen + {proxy.id} ensures exists j :: 0 <= j < |more| && more[j].id == id {
      if id == proxy.id {
        assert more[|proxies|].id == id;
      } else {
        var j :| 0 <= j < |proxies| && proxies[j].id == id;
        assert more[j].id == id;
      }
    }
  }

  lemma AddedIsSound(made: seq<Loaded<Proxy>>, proxies: seq<Proxy>)
    requires Added(made, proxies) && AllDerived(made)
    ensures Sound(made[..|proxies|])
  {
    forall i, j | 0 <= i < j < |proxies| ensures DifferentEndpoints(made[i], made[j]) {
      assert proxies[i].id != proxies[j].id;
    }
  }

  lemma SoundPrefix(made: seq<Loaded<Proxy>>, n: nat)
    requires n <= |made| && Sound(made)
    ensures Sound(made[..n])
  {
  }

  /** The entries added so far are sound, so an entry that cannot be added is the first failure. */
  lemma FirstFailure(made: seq<Loaded<Proxy>>, proxies: seq<Proxy>)
    requires Added(made, proxies) && |proxies| < |made|
    requires AllDerived(made)
    requires made[|proxies|].Ok? ==> !Sound(made[..|proxies| + 1])
    ensures FailsAt(made, |proxies|, Failure(made[|proxies|])) && !Sound(made)
  {
    var i := |proxies|;
    AddedIsSound(made, proxies);
    assert made[..i + 1][i] == made[i];
    if Sound(made) {
      SoundPrefix(made, i + 1);
    }
  }

  lemma RepeatIsUnsound(made: seq<Loaded<Proxy>>, proxies: seq<Proxy>, seen: set<string>, proxy: Proxy)
    requires Added(made, proxies) && Seen(proxies, seen) && |proxies| < |made| && made[|proxies|] == Ok(proxy)
    requires AllDerived(made)
    requires proxy.id in seen
    ensures !Sound(made[..|proxies| + 1])
  {
    var i := |proxies|;
    var j :| 0 <= j < |proxies| && proxies[j].id == proxy.id;
    assert made[j] == Ok(proxies[j]) && DerivedId(made[j].value) && DerivedId(made[i].value);
    IdDeterminesEndpoint(proxies[j].host, proxies[j].port, proxy.host, proxy.port);
    var upTo := made[..i + 1];
    assert upTo[j] == made[j] && upTo[i] == made[i];
    assert !DifferentEndpoints(upTo[j], upTo[i]);
  }
}
