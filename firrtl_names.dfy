/**
 * The identifier allocator of the FIRRTL backend (backends/firrtl/firrtl.cc):
 * the globals `used_names`, `namecache` and `autoid_counter`, with `make_id`
 * and `next_id`.
 */
module FirrtlNames {
  import opened Text

  /**
   * `log_id`: a public name loses its leading backslash unless the next
   * character is '$', a backslash, a digit or the end of the name.
   */
  function LogId(id: string): (r: string)
    ensures |r| == |id| || |r| == |id| - 1
  {
    if |id| >= 2 && id[0] == '\\' && id[1] != '$' && id[1] != '\\' && !IsDigit(id[1]) then id[1..]
    else id
  }

  predicate IsIdChar(c: char)
  {
    ('a' <= c <= 'z') || ('A' <= c <= 'Z') || IsDigit(c) || c == '_'
  }

  /** A name FIRRTL accepts: letters, digits and '_', not starting with a digit. */
  predicate IsFirrtlId(s: string)
  {
    (forall i | 0 <= i < |s| :: IsIdChar(s[i])) && (|s| > 0 ==> !IsDigit(s[0]))
  }

  /** Whether `make_id` keeps character `c` at position `i`. */
  predicate KeepsChar(c: char, i: int)
  {
    ('a' <= c <= 'z') || ('A' <= c <= 'Z') || (IsDigit(c) && i != 0) || c == '_'
  }

  /** The name after the character scrub of `make_id`. */
  function Sanitized(s: string): (r: string)
    ensures |r| == |s|
  {
    seq(|s|, i requires 0 <= i < |s| => if KeepsChar(s[i], i) then s[i] else '_')
  }

  /** A scrubbed name is a FIRRTL name, whatever it was before. */
  lemma SanitizedIsId(s: string)
    ensures IsFirrtlId(Sanitized(s))
  {
  }

  /** The scrub changes exactly the characters FIRRTL rejects, each into '_'. */
  lemma SanitizedChanges(s: string, i: nat)
    requires i < |s|
    ensures Sanitized(s)[i] == s[i] <==> (KeepsChar(s[i], i) || s[i] == '_')
    ensures Sanitized(s)[i] != s[i] ==> Sanitized(s)[i] == '_'
  {
  }

  /** A name that is already a FIRRTL name comes through the scrub unchanged, so the scrub is idempotent. */
  lemma SanitizedFixesIds(s: string)
    requires IsFirrtlId(s)
    ensures Sanitized(s) == s
    ensures Sanitized(Sanitized(s)) == Sanitized(s)
  {
    SanitizedIsId(s);
  }

  lemma UnderscoresKeepId(s: string, k: nat)
    requires IsFirrtlId(s)
    ensures IsFirrtlId(s + Underscores(k))
  {
    var t := s + Underscores(k);
    forall i | 0 <= i < |t| ensures IsIdChar(t[i]) {
      if i >= |s| { assert t[i] == Underscores(k)[i - |s|]; }
    }
  }

  /** The names `next_id` issues: "_" followed by the counter in decimal. */
  function AutoName(n: nat): (r: string)
    ensures IsFirrtlId(r)
  {
    "_" + NatToString(n)
  }

  predicate IsAutoName(s: string)
  {
    |s| >= 1 && s[0] == '_' && AllDigits(s[1..])
  }

  function AutoIndex(s: string): nat
    requires IsAutoName(s)
  {
    ParseDecimal(s[1..])
  }

  /** An issued name gives back the counter it was made from, so distinct counters give distinct names. */
  lemma AutoNameRoundTrip(n: nat)
    ensures IsAutoName(AutoName(n)) && AutoIndex(AutoName(n)) == n
  {
    assert AutoName(n)[1..] == NatToString(n);
    DecimalRoundTrip(n);
  }

  /** `newer` keeps every entry of `older`. */
  ghost predicate Extends(newer: map<string, string>, older: map<string, string>)
  {
    forall k | k in older :: k in newer && newer[k] == older[k]
  }

  /** Every id cached since `older` was given a name that was not in `used` then. */
  ghost predicate FreshSince(newer: map<string, string>, older: map<string, string>, used: set<string>)
  {
    forall k | k in newer && k !in older :: newer[k] !in used
  }

  lemma ExtendsTrans(newest: map<string, string>, newer: map<string, string>, older: map<string, string>)
    requires Extends(newest, newer) && Extends(newer, older)
    ensures Extends(newest, older)
  {
  }

  class NameAllocator {
    var usedNames: set<string>
    var nameCache: map<string, string>
    var autoidCounter: nat
    /** Every name `next_id` has handed out. */
    ghost var drawnIds: set<string>

    /**
     * Every cached name is in use, is a FIRRTL name, was not handed out by
     * `next_id`, and no two ids share one; every drawn name is in use.
     */
    ghost predicate Valid()
      reads this
    {
      (forall k | k in nameCache :: nameCache[k] in usedNames && nameCache[k] !in drawnIds && IsFirrtlId(nameCache[k])) &&
      (forall k1, k2 | k1 in nameCache && k2 in nameCache && k1 != k2 :: nameCache[k1] != nameCache[k2]) &&
      drawnIds <= usedNames
    }

    constructor ()
      ensures Valid()
      ensures usedNames == {} && nameCache == map[] && autoidCounter == 0 && drawnIds == {}
    {
      drawnIds := {};
      usedNames := {};
      nameCache := map[];
      autoidCounter := 0;
    }

    /** Since `old`, names were only added, and each was unused when it was given. */
    twostate predicate Grown()
      reads this
    {
      Valid() && Extends(nameCache, old(nameCache)) && old(usedNames) <= usedNames
      && FreshSince(nameCache, old(nameCache), old(usedNames)) && drawnIds == old(drawnIds)
    }

    /** `namecache.clear(); autoid_counter = 0;`: `used_names` is kept. */
    method ResetForRun()
      requires Valid()
      modifies this
      ensures Valid()
      ensures nameCache == map[] && autoidCounter == 0 && usedNames == old(usedNames) && drawnIds == old(drawnIds)
    {
      nameCache := map[];
      autoidCounter := 0;
    }

    /** `next_id`: the first "_<n>" from the counter on that is not in use. */
    method NextId() returns (r: string)
      requires Valid()
      modifies this
      ensures Valid()
      ensures nameCache == old(nameCache)
      ensures autoidCounter > old(autoidCounter) && r == AutoName(autoidCounter - 1)
      ensures r !in old(usedNames) && usedNames == old(usedNames) + {r} && drawnIds == old(drawnIds) + {r}
      ensures forall n | old(autoidCounter) <= n < autoidCounter - 1 :: AutoName(n) in old(usedNames)
    {
      ghost var seen: set<string> := {};
      var newId: string;
      while true
        invariant old(autoidCounter) <= autoidCounter
        invariant usedNames == old(usedNames) && nameCache == old(nameCache) && drawnIds == old(drawnIds)
        invariant seen <= usedNames
        invariant forall x | x in seen :: IsAutoName(x) && AutoIndex(x) < autoidCounter
        invariant forall n | old(autoidCounter) <= n < autoidCounter :: AutoName(n) in usedNames
        decreases usedNames - seen
      {
        newId := AutoName(autoidCounter);
        AutoNameRoundTrip(autoidCounter);
        autoidCounter := autoidCounter + 1;
        if newId !in usedNames {
          break;
        }
        seen := seen + {newId};
      }
      usedNames := usedNames + {newId};
      drawnIds := drawnIds + {newId};
      r := newId;
    }

    /**
     * `make_id`: the cached name of `id`, or else the scrubbed `log_id(id)` with
     * as few underscores appended as make it unused; the new name is cached and
     * marked used.
     */
    method MakeId(id: string) returns (r: string)
      requires Valid()
      modifies this
      ensures Valid()
      ensures id in nameCache && nameCache[id] == r && IsFirrtlId(r)
      ensures Grown() && autoidCounter == old(autoidCounter)
      ensures id in old(nameCache) ==> r == old(nameCache[id]) && usedNames == old(usedNames) && nameCache == old(nameCache)
      ensures id !in old(nameCache) ==>
        var base := Sanitized(LogId(id));
        && |r| >= |base| && r == base + Underscores(|r| - |base|)
        && (forall k | 0 <= k < |r| - |base| :: base + Underscores(k) in old(usedNames))
        && r !in old(usedNames)
        && usedNames == old(usedNames) + {r} && nameCache == old(nameCache)[id := r]
    {
      if id in nameCache {
        return nameCache[id];
      }
      var newId := LogId(id);
      ghost var raw := newId;
      var i := 0;
      while i < |newId|
        invariant 0 <= i <= |newId| == |raw|
        invariant forall j | 0 <= j < i :: newId[j] == Sanitized(raw)[j]
        invariant forall j | i <= j < |newId| :: newId[j] == raw[j]
      {
        var ch := newId[i];
        if !KeepsChar(ch, i) {
          newId := newId[i := '_'];
        }
        i := i + 1;
      }
      assert newId == Sanitized(raw);
      ghost var base := newId;
      ghost var seen: set<string> := {};
      SanitizedIsId(raw);
      while newId in usedNames
        invariant |newId| >= |base| && newId == base + Underscores(|newId| - |base|)
        invariant seen <= usedNames
        invariant forall x | x in seen :: |x| < |newId|
        invariant forall k | 0 <= k < |newId| - |base| :: base + Underscores(k) in usedNames
        decreases usedNames - seen
      {
        seen := seen + {newId};
        assert Underscores(|newId| + 1 - |base|) == Underscores(|newId| - |base|) + "_";
        newId := newId + "_";
      }
      UnderscoresKeepId(base, |newId| - |base|);
      nameCache := nameCache[id := newId];
      usedNames := usedNames + {newId};
      r := newId;
    }
  }
}
