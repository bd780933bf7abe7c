/**
  parseURL (nav.js:127-150): the destination comes from the first of five
  query parameters whose value names a known location, else from the hash
  fragment; when neither names one, the destination is left as it was.
*/
module Destination {
  import opened Wrappers
  import opened Campus

  /** The query parameter names parseURL tries, in order. */
  const PossibleKeys: seq<string> := ["to", "destination", "loc", "place", "target"]

  /**
    The two parts of `window.location` that parseURL reads: the query as
    decoded name/value pairs in order, and `location.hash`, which is empty or
    starts with '#'.
  */
  datatype Url = Url(params: seq<(string, string)>, hash: string)

  /** `URLSearchParams.get(key)`: the value of the first pair named `key`; `has(key)` is `Get(...).Some?`. */
  function Get(params: seq<(string, string)>, key: string): (v: Option<string>)
    ensures v.None? <==> forall i :: 0 <= i < |params| ==> params[i].0 != key
  {
    if |params| == 0 then None
    else if params[0].0 == key then Some(params[0].1)
    else Get(params[1..], key)
  }

  /** `get` returns the value of the FIRST pair with that name. */
  lemma {:induction false} GetFirst(params: seq<(string, string)>, key: string, i: nat)
    requires i < |params| && params[i].0 == key
    requires forall j :: 0 <= j < i ==> params[j].0 != key
    ensures Get(params, key) == Some(params[i].1)
  {
    if i > 0 {
      GetFirst(params[1..], key, i - 1);
    }
  }

  /** Parameter `key` is present and its value is accepted by `known`. */
  predicate Accepts(params: seq<(string, string)>, key: string, known: string -> bool) {
    Get(params, key).Some? && known(Get(params, key).value)
  }

  /** The value of the first of `keys` that `known` accepts; present but rejected values are skipped. */
  function FirstKnown(params: seq<(string, string)>, keys: seq<string>, known: string -> bool): Option<string>
  {
    if |keys| == 0 then None
    else if Accepts(params, keys[0], known) then Get(params, keys[0])
    else FirstKnown(params, keys[1..], known)
  }

  /** `location.hash.substring(1)` when the hash is not empty. */
  function HashValue(hash: string): Option<string> {
    if |hash| > 0 then Some(hash[1..]) else None
  }

  /** The destination parseURL picks when `known` decides what `locations[value]` lets through. */
  function ResolveWith(url: Url, known: string -> bool): Option<string> {
    var fromQuery := FirstKnown(url.params, PossibleKeys, known);
    if fromQuery.Some? then fromQuery
    else
      var h := HashValue(url.hash);
      if h.Some? && known(h.value) then h else None
  }

  predicate IsLocation(v: string) {
    v in Locations
  }

  /** parseURL's choice, with `locations[value]` read as "value is a campus location". */
  function Resolve(url: Url): Option<string> {
    ResolveWith(url, IsLocation)
  }

  /**
    The loop of parseURL: the destination it assigns, or None when it
    returns without assigning one. `known` is the test `locations[value]`
    stands for: `IsLocation` for the own-property reading, `TruthyAsWritten`
    for the code as written.
  */
  method LookupDestination(url: Url, known: string -> bool) returns (found: Option<string>)
    ensures found == ResolveWith(url, known)
  {
    for i := 0 to |PossibleKeys|
      invariant FirstKnown(url.params, PossibleKeys[i..], known)
             == FirstKnown(url.params, PossibleKeys, known)
    {
      var key := PossibleKeys[i];
      var value := Get(url.params, key);
      assert PossibleKeys[i..][0] == key;
      if value.Some? && known(value.value) {
        return value;
      }
      assert PossibleKeys[i..][1..] == PossibleKeys[i + 1..];
    }
    if |url.hash| > 0 {
      var hashValue := url.hash[1..];
      if known(hashValue) {
        return Some(hashValue);
      }
    }
    return None;
  }

  /**
    FirstKnown returns exactly the value of the first key that `known`
    accepts, and nothing when no key is accepted.
  */
  lemma {:induction false} FirstKnownSpec(params: seq<(string, string)>, keys: seq<string>,
                                          known: string -> bool)
    ensures FirstKnown(params, keys, known).None?
        <==> forall i :: 0 <= i < |keys| ==> !Accepts(params, keys[i], known)
    ensures FirstKnown(params, keys, known).Some? ==>
      exists i :: 0 <= i < |keys| && Accepts(params, keys[i], known)
        && FirstKnown(params, keys, known) == Get(params, keys[i])
        && forall j :: 0 <= j < i ==> !Accepts(params, keys[j], known)
  {
    if |keys| > 0 {
      FirstKnownSpec(params, keys[1..], known);
      if !Accepts(params, keys[0], known) {
        var r := FirstKnown(params, keys, known);
        if r.Some? {
          var i :| 0 <= i < |keys[1..]| && Accepts(params, keys[1..][i], known)
            && r == Get(params, keys[1..][i])
            && forall j :: 0 <= j < i ==> !Accepts(params, keys[1..][j], known);
          assert keys[1..][i] == keys[i + 1];
          assert forall j :: 0 <= j < i + 1 ==> !Accepts(params, keys[j], known) by {
            forall j | 0 <= j < i + 1 ensures !Accepts(params, keys[j], known) {
              if j > 0 {
                assert keys[j] == keys[1..][j - 1];
              }
            }
          }
        } else {
          forall i | 0 <= i < |keys| ensures !Accepts(params, keys[i], known) {
            if i > 0 {
              assert keys[i] == keys[1..][i - 1];
            }
          }
        }
      }
    }
  }

  /**
    Key precedence: when the `i`-th possible key is accepted and no earlier
    one is, its value is the destination, whatever the later keys and the
    hash say.
  */
  lemma KeyPrecedence(url: Url, i: nat, known: string -> bool)
    requires i < |PossibleKeys| && Accepts(url.params, PossibleKeys[i], known)
    requires forall j :: 0 <= j < i ==> !Accepts(url.params, PossibleKeys[j], known)
    ensures ResolveWith(url, known) == Get(url.params, PossibleKeys[i])
  {
    FirstKnownSpec(url.params, PossibleKeys, known);
    var r := FirstKnown(url.params, PossibleKeys, known);
    var k :| 0 <= k < |PossibleKeys| && Accepts(url.params, PossibleKeys[k], known)
      && r == Get(url.params, PossibleKeys[k])
      && forall j :: 0 <= j < k ==> !Accepts(url.params, PossibleKeys[j], known);
  }

  /**
    The hash is consulted only when no query key is accepted, and then it is
    the destination exactly when `known` accepts it.
  */
  lemma HashFallback(url: Url, known: string -> bool)
    requires forall i :: 0 <= i < |PossibleKeys| ==> !Accepts(url.params, PossibleKeys[i], known)
    ensures ResolveWith(url, known)
         == if |url.hash| > 0 && known(url.hash[1..]) then Some(url.hash[1..]) else None
  {
    FirstKnownSpec(url.params, PossibleKeys, known);
  }

  /** Whatever parseURL picks, `known` accepted it. */
  lemma {:induction false} ResolveAccepted(url: Url, known: string -> bool)
    ensures ResolveWith(url, known).Some? ==> known(ResolveWith(url, known).value)
  {
    FirstKnownSpec(url.params, PossibleKeys, known);
    var r := FirstKnown(url.params, PossibleKeys, known);
    if r.Some? {
      var k :| 0 <= k < |PossibleKeys| && Accepts(url.params, PossibleKeys[k], known)
        && r == Get(url.params, PossibleKeys[k])
        && forall j :: 0 <= j < k ==> !Accepts(url.params, PossibleKeys[j], known);
    }
  }

  /** With the own-property reading, the chosen destination is always a campus location. */
  lemma ResolveIsLocation(url: Url)
    ensures Resolve(url).Some? ==> Resolve(url).value in Locations
  {
    ResolveAccepted(url, IsLocation);
  }

  /** A present but unknown value does not stop the search: `?to=gym&destination=B_56` goes to B_56. */
  lemma UnknownValueSkipped()
    ensures Resolve(Url([("to", "gym"), ("destination", "B_56")], "")) == Some("B_56")
  {
    var ps := [("to", "gym"), ("destination", "B_56")];
    assert Get(ps, "to") == Some("gym");
    assert "gym" !in Locations;
    assert Get(ps, "destination") == Some("B_56");
  }

  /** Property names every JavaScript object inherits; `locations[name]` is truthy for each of them. */
  const PrototypeNames: set<string> := {
    "constructor", "hasOwnProperty", "isPrototypeOf", "propertyIsEnumerable",
    "toLocaleString", "toString", "valueOf", "__proto__",
    "__defineGetter__", "__defineSetter__", "__lookupGetter__", "__lookupSetter__"
  }

  /** `if (locations[value])` as written: own keys and inherited property names both pass. */
  predicate TruthyAsWritten(v: string) {
    v in Locations || v in PrototypeNames
  }

  /** parseURL exactly as written. */
  function ResolveAsWritten(url: Url): Option<string> {
    ResolveWith(url, TruthyAsWritten)
  }

  /**
    As written, `?to=constructor` makes `constructor` the destination
    although no campus location has that name, so `locations[destinationId]`
    has no coordinates later.
  */
  lemma PrototypeNameAccepted()
    ensures ResolveAsWritten(Url([("to", "constructor")], "")) == Some("constructor")
    ensures "constructor" !in Locations
  {
    var ps := [("to", "constructor")];
    assert Get(ps, "to") == Some("constructor");
    assert Accepts(ps, "to", TruthyAsWritten);
  }
}
