/** The order in which providers are tried, and the failover loop of a chat request. */
module ProviderFailover {
  import opened Prelude
  import opened StableSort

  function IndexOf(s: seq<string>, x: string): (i: nat)
    requires x in s
    ensures i < |s| && s[i] == x && forall j :: 0 <= j < i ==> s[j] != x
  {
    if s[0] == x then 0 else 1 + IndexOf(s[1..], x)
  }

  /** The preferred provider, the manager's priority list, and the registered providers with
      credentials in registration order. */
  datatype Ranking = Ranking(first: Option<string>, priority: seq<string>, configured: seq<string>)

  /** Where a configured provider stands: the preferred one first, then those of the priority
      list by position, then the others by registration. */
  function Rank(g: Ranking, name: string): nat
    requires name in g.configured
  {
    if g.first == Some(name) then 0
    else if name in g.priority then 1 + IndexOf(g.priority, name)
    else 1 + |g.priority| + IndexOf(g.configured, name)
  }

  /** Configured providers in strictly rising rank. */
  ghost predicate Rising(g: Ranking, s: seq<string>) {
    && (forall x :: x in s ==> x in g.configured)
    && (forall i, j :: 0 <= i < j < |s| ==> Rank(g, s[i]) < Rank(g, s[j]))
  }

  ghost predicate RankedUpTo(g: Ranking, order: seq<string>, r: nat) {
    Rising(g, order) && forall x :: x in g.configured ==> (x in order <==> Rank(g, x) <= r)
  }

  /** Exactly the configured providers, in strictly rising rank. */
  ghost predicate IsFailoverOrder(g: Ranking, order: seq<string>) {
    Rising(g, order) && forall x :: x in g.configured ==> x in order
  }

  lemma {:induction false} RankBound(g: Ranking, x: string)
    requires x in g.configured
    ensures Rank(g, x) <= |g.priority| + |g.configured|
  {
  }

  /** One more rank: at most one configured provider has it. */
  lemma {:induction false} Extend(g: Ranking, order: seq<string>, r: nat, name: string)
    requires RankedUpTo(g, order, r)
    requires forall x :: x in g.configured && Rank(g, x) == r + 1 ==> x == name
    requires name in g.configured && name !in order ==> Rank(g, name) == r + 1
    ensures RankedUpTo(g, if name in g.configured && name !in order then order + [name] else order, r + 1)
  {
  }

  lemma {:induction false} PriorityRank(g: Ranking, order: seq<string>, k: nat)
    requires k < |g.priority| && RankedUpTo(g, order, k)
    ensures forall x :: x in g.configured && Rank(g, x) == k + 1 ==> x == g.priority[k]
    ensures g.priority[k] in g.configured && g.priority[k] !in order ==> Rank(g, g.priority[k]) == k + 1
  {
    var name := g.priority[k];
    if name in g.configured && name !in order {
      assert name in g.priority;
      assert IndexOf(g.priority, name) <= k;
    }
  }

  lemma {:induction false} RegistrationRank(g: Ranking, order: seq<string>, k: nat)
    requires k < |g.configured| && NoRepeats(g.configured) && RankedUpTo(g, order, |g.priority| + k)
    ensures forall x :: x in g.configured && Rank(g, x) == |g.priority| + k + 1 ==> x == g.configured[k]
    ensures g.configured[k] !in order ==> Rank(g, g.configured[k]) == |g.priority| + k + 1
  {
    assert IndexOf(g.configured, g.configured[k]) == k;
  }

  function Preferred(preferred: Option<string>, lower: string -> string): Option<string> {
    if preferred.Some? && preferred.value != "" then Some(lower(preferred.value)) else None
  }

  /** `lower` is `str.lower`. */
  method GetFailoverOrder(
      preferred: Option<string>, priority: seq<string>, configured: seq<string>, lower: string -> string)
    returns (order: seq<string>)
    requires NoRepeats(configured)
    ensures var first := if preferred.Some? && preferred.value != "" then Some(lower(preferred.value)) else None;
            IsFailoverOrder(Ranking(first, priority, configured), order)
  {
    ghost var g := Ranking(Preferred(preferred, lower), priority, configured);
    order := [];
    if configured == [] {
      return;
    }
    if preferred.Some? && preferred.value != "" && lower(preferred.value) in configured {
      order := order + [lower(preferred.value)];
    }
    for k := 0 to |priority|
      invariant RankedUpTo(g, order, k)
    {
      PriorityRank(g, order, k);
      Extend(g, order, k, priority[k]);
      if priority[k] in configured && priority[k] !in order {
        order := order + [priority[k]];
      }
    }
    for k := 0 to |configured|
      invariant RankedUpTo(g, order, |priority| + k)
    {
      RegistrationRank(g, order, k);
      Extend(g, order, |priority| + k, configured[k]);
      if configured[k] !in order {
        order := order + [configured[k]];
      }
    }
    forall x | x in configured ensures x in order {
      RankBound(g, x);
    }
  }

  /** The order is fully determined. */
  lemma {:induction false} OrderUnique(g: Ranking, a: seq<string>, b: seq<string>)
    requires IsFailoverOrder(g, a) && IsFailoverOrder(g, b)
    ensures a == b
  {
    RisingUnique(g, a, b);
  }

  lemma {:induction false} RisingUnique(g: Ranking, a: seq<string>, b: seq<string>)
    requires Rising(g, a) && Rising(g, b)
    requires forall x :: x in a <==> x in b
    ensures a == b
  {
    if b != [] {
      assert b[0] in a;
    }
    if a != [] {
      assert a[0] in b;
      LeastFirst(g, a, b[0]);
      LeastFirst(g, b, a[0]);
      SameRank(g, a, b[0]);
      forall x ensures x in a[1..] <==> x in b[1..] {
        assert x in a <==> x == a[0] || x in a[1..];
        assert x in b <==> x == b[0] || x in b[1..];
        assert a[0] !in a[1..] && b[0] !in b[1..];
      }
      RisingUnique(g, a[1..], b[1..]);
      assert a == [a[0]] + a[1..] && b == [b[0]] + b[1..];
    }
  }

  lemma {:induction false} LeastFirst(g: Ranking, s: seq<string>, x: string)
    requires Rising(g, s) && x in s
    ensures Rank(g, s[0]) <= Rank(g, x)
  {
    var k :| 0 <= k < |s| && s[k] == x;
  }

  lemma {:induction false} SameRank(g: Ranking, s: seq<string>, x: string)
    requires Rising(g, s) && x in s && Rank(g, x) <= Rank(g, s[0])
    ensures x == s[0]
  {
    var k :| 0 <= k < |s| && s[k] == x;
  }

  ghost predicate ComesBefore(g: Ranking, x: string, y: string)
    requires x in g.configured && y in g.configured
  {
    && x != y && g.first != Some(y)
    && (g.first != Some(x) && y in g.priority ==>
          x in g.priority && IndexOf(g.priority, x) < IndexOf(g.priority, y))
    && (g.first != Some(x) && x !in g.priority ==>
          y !in g.priority && IndexOf(g.configured, x) < IndexOf(g.configured, y))
  }

  lemma {:induction false} RankMeaning(g: Ranking, x: string, y: string)
    requires x in g.configured && y in g.configured && Rank(g, x) < Rank(g, y)
    ensures ComesBefore(g, x, y)
  {
  }

  /** The order in plain terms: every configured provider once; the preferred one first; those of
      the priority list before the others and by position; the others by registration. */
  lemma {:induction false} OrderMeaning(g: Ranking, order: seq<string>)
    requires IsFailoverOrder(g, order)
    ensures forall x :: x in order <==> x in g.configured
    ensures forall i, j :: 0 <= i < j < |order| ==> ComesBefore(g, order[i], order[j])
  {
    forall i, j | 0 <= i < j < |order| ensures ComesBefore(g, order[i], order[j]) {
      RankMeaning(g, order[i], order[j]);
    }
  }

  // ---- the failover loop ----

  datatype Outcome = Reply(text: string) | Raises(error: string)

  /** What asking for a provider and chatting with it does. */
  datatype Attempt = Unavailable(error: string) | Available(supportsTools: bool, outcome: Outcome)

  datatype ChatResult = Response(text: string) | NoProviders | AllFailed(errors: seq<string>) | Raised(error: string)

  predicate Skipped(a: Attempt, wantsTools: bool) {
    a.Available? && wantsTools && !a.supportsTools
  }

  predicate Succeeds(a: Attempt, wantsTools: bool) {
    a.Available? && !Skipped(a, wantsTools) && a.outcome.Reply?
  }

  function ErrorsOf(order: seq<string>, n: nat, wantsTools: bool, attempt: string -> Attempt): seq<string>
    requires n <= |order|
  {
    if n == 0 then []
    else
      var name, rest := order[n - 1], ErrorsOf(order, n - 1, wantsTools, attempt);
      match attempt(name)
      case Unavailable(e) => rest + [name + ": " + e]
      case Available(tools, out) =>
        if wantsTools && !tools then rest
        else if out.Raises? then rest + [name + ": " + out.error]
        else rest
  }

  /** The error that trying a provider leaves behind, if any. */
  ghost predicate LeavesError(a: Attempt, wantsTools: bool, e: string) {
    a == Unavailable(e) || (a.Available? && (wantsTools ==> a.supportsTools) && a.outcome == Raises(e))
  }

  /** The errors are those of the providers that failed, in the order of the attempts, each after
      the name of its provider; a provider that was skipped leaves none. */
  lemma {:induction false} ErrorsInFields(order: seq<string>, n: nat, wantsTools: bool, attempt: string -> Attempt)
    requires n < |order|
    ensures var before, after := ErrorsOf(order, n, wantsTools, attempt), ErrorsOf(order, n + 1, wantsTools, attempt);
            && (forall e :: LeavesError(attempt(order[n]), wantsTools, e) ==> after == before + [order[n] + ": " + e])
            && ((forall e :: !LeavesError(attempt(order[n]), wantsTools, e)) ==> after == before)
            && ErrorsOf(order, 0, wantsTools, attempt) == []
  {
    match attempt(order[n])
    case Unavailable(e) => assert LeavesError(attempt(order[n]), wantsTools, e);
    case Available(tools, out) =>
      if out.Raises? && (wantsTools ==> tools) {
        assert LeavesError(attempt(order[n]), wantsTools, out.error);
      }
  }

  ghost predicate IsFirstSuccess(order: seq<string>, wantsTools: bool, attempt: string -> Attempt, i: int) {
    && 0 <= i < |order| && Succeeds(attempt(order[i]), wantsTools)
    && forall j :: 0 <= j < i ==> !Succeeds(attempt(order[j]), wantsTools)
  }

  /** Providers are tried once each in order, up to the first that replies. The request fails
      only when the list is empty or none replies, and then with the errors in order. */
  ghost predicate FailsOver(
      order: seq<string>, wantsTools: bool, attempt: string -> Attempt, result: ChatResult, tried: seq<string>) {
    match result
    case NoProviders => order == [] && tried == []
    case Response(text) =>
      exists i :: IsFirstSuccess(order, wantsTools, attempt, i) && tried == order[..i + 1] &&
                  text == attempt(order[i]).outcome.text
    case AllFailed(errors) =>
      && order != [] && tried == order && errors == ErrorsOf(order, |order|, wantsTools, attempt)
      && forall j :: 0 <= j < |order| ==> !Succeeds(attempt(order[j]), wantsTools)
    case Raised(_) => false
  }

  method ChatOver(order: seq<string>, wantsTools: bool, attempt: string -> Attempt)
    returns (result: ChatResult, tried: seq<string>)
    ensures FailsOver(order, wantsTools, attempt, result, tried)
  {
    tried := [];
    if order == [] {
      return NoProviders, tried;
    }
    var errors := [];
    for n := 0 to |order|
      invariant tried == order[..n] && errors == ErrorsOf(order, n, wantsTools, attempt)
      invariant forall j :: 0 <= j < n ==> !Succeeds(attempt(order[j]), wantsTools)
    {
      var name := order[n];
      tried := tried + [name];
      match attempt(name) {
        case Unavailable(e) =>
          errors := errors + [name + ": " + e];
        case Available(tools, out) =>
          if wantsTools && !tools {
            continue;
          }
          match out {
            case Reply(text) =>
              assert IsFirstSuccess(order, wantsTools, attempt, n);
              return Response(text), tried;
            case Raises(e) =>
              errors := errors + [name + ": " + e];
          }
      }
    }
    return AllFailed(errors), tried;
  }

  /** `chat`: MANUAL asks the one provider and lets its error through; any other mode fails over. */
  method Chat(providerName: Option<string>, default: string, mode: string, wantsTools: bool,
              priority: seq<string>, configured: seq<string>, lower: string -> string, attempt: string -> Attempt)
    returns (result: ChatResult, tried: seq<string>)
    requires NoRepeats(configured)
    ensures mode == "MANUAL" ==>
              var name := if providerName.Some? && providerName.value != "" then providerName.value else default;
              && tried == [name]
              && result == match attempt(name)
                           case Unavailable(e) => Raised(e)
                           case Available(_, Reply(t)) => Response(t)
                           case Available(_, Raises(e)) => Raised(e)
    ensures mode != "MANUAL" ==>
              var name := if providerName.Some? && providerName.value != "" then providerName.value else default;
              var first := if name != "" then Some(lower(name)) else None;
              exists order ::
                && IsFailoverOrder(Ranking(first, priority, configured), order)
                && FailsOver(order, wantsTools, attempt, result, tried)
  {
    var resolved := Resolved(providerName, default);
    if mode == "MANUAL" {
      tried := [resolved];
      match attempt(resolved) {
        case Unavailable(e) => result := Raised(e);
        case Available(_, out) =>
          match out {
            case Reply(t) => result := Response(t);
            case Raises(e) => result := Raised(e);
          }
      }
      return;
    }
    var order := GetFailoverOrder(Some(resolved), priority, configured, lower);
    result, tried := ChatOver(order, wantsTools, attempt);
  }

  /** `provider_name or self.default_provider`. */
  function Resolved(providerName: Option<string>, default: string): string {
    if providerName.Some? && providerName.value != "" then providerName.value else default
  }
}
