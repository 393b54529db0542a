/** Tab completion of banned player names (`BannedPlayersTabCompleter`):
    the names of active bans are collected into a set, then those whose
    lower-cased form starts with the lower-cased input are suggested. */
module BannedPlayersTabCompleter {
  import opened JavaStrings

  /** The four ban kinds are named; every other kind (mutes, warnings,
      kicks, notes) is `OtherType`. */
  datatype PunishmentType = Ban | TempBan | IpBan | TempIpBan | OtherType(tag: string)

  /** What the completer reads of a punishment; `expired` is the value
      `isExpired()` returns at the time of the call. */
  datatype Punishment = Punishment(name: Option<string>, kind: PunishmentType, expired: bool)

  predicate IsBanKind(kind: PunishmentType) {
    kind == Ban || kind == TempBan || kind == IpBan || kind == TempIpBan
  }

  /** A list entry whose name is collected: non-null, not expired, a ban of
      one of the four kinds, with a non-null non-empty name. */
  predicate Qualifies(entry: Option<Punishment>) {
    entry.Some? && !entry.value.expired && IsBanKind(entry.value.kind) &&
    entry.value.name.Some? && entry.value.name.value != []
  }

  /** The set of names the first loop collects from `entries`. */
  function BannedNames(entries: seq<Option<Punishment>>): (names: set<string>)
    ensures forall n :: n in names ==> n != []
  {
    set i | 0 <= i < |entries| && Qualifies(entries[i]) :: entries[i].value.name.value
  }

  predicate Matches(name: string, currentInput: string) {
    StartsWith(Lower(name), currentInput)
  }

  /** `onTabComplete(user, args)`; `fetched` is what `getPunishments`
      returned, `None` when it threw. The set is iterated in an order
      the model leaves open. */
  method OnTabComplete(args: seq<string>, fetched: Option<seq<Option<Punishment>>>) returns (suggestions: seq<string>)
    ensures |args| != 1 || fetched.None? ==> suggestions == []
    ensures |args| == 1 && fetched.Some? ==>
              forall s :: s in suggestions <==> s in BannedNames(fetched.value) && Matches(s, Lower(args[0]))
    ensures forall i, j :: 0 <= i < j < |suggestions| ==> suggestions[i] != suggestions[j]
  {
    suggestions := [];
    if |args| == 1 {
      var currentInput := Lower(args[0]);
      if fetched.None? {
        return suggestions;
      }
      var bannedNames := CollectBannedNames(fetched.value);
      suggestions := FilterByPrefix(bannedNames, currentInput);
    }
  }

  /** The first loop: the names of the qualifying entries, into a set. */
  method CollectBannedNames(all: seq<Option<Punishment>>) returns (bannedNames: set<string>)
    ensures bannedNames == BannedNames(all)
  {
    bannedNames := {};
    var i := 0;
    while i < |all|
      invariant 0 <= i <= |all|
      invariant bannedNames == BannedNames(all[..i])
    {
      var punishment := all[i];
      if punishment.Some? && !punishment.value.expired {
        var kind := punishment.value.kind;
        if kind == Ban || kind == TempBan || kind == IpBan || kind == TempIpBan {
          var name := punishment.value.name;
          if name.Some? && name.value != [] {
            bannedNames := bannedNames + {name.value};
          }
        }
      }
      assert all[..i + 1] == all[..i] + [all[i]];
      i := i + 1;
    }
    assert all[..i] == all;
  }

  /** The second loop: every collected name whose lower-cased form starts
      with `currentInput`, each once. */
  method FilterByPrefix(bannedNames: set<string>, currentInput: string) returns (suggestions: seq<string>)
    ensures forall s :: s in suggestions <==> s in bannedNames && Matches(s, currentInput)
    ensures forall i, j :: 0 <= i < j < |suggestions| ==> suggestions[i] != suggestions[j]
  {
    suggestions := [];
    var remaining := bannedNames;
    while remaining != {}
      invariant remaining <= bannedNames
      invariant forall s :: s in suggestions <==> s in bannedNames - remaining && Matches(s, currentInput)
      invariant forall i, j :: 0 <= i < j < |suggestions| ==> suggestions[i] != suggestions[j]
      decreases |remaining|
    {
      var name :| name in remaining;
      if Matches(name, currentInput) {
        suggestions := suggestions + [name];
      }
      remaining := remaining - {name};
    }
  }

  /** Collecting is insensitive to where in the list a ban appears and to
      repeats: the names of a concatenation are the union of the names. */
  lemma BannedNamesAppend(a: seq<Option<Punishment>>, b: seq<Option<Punishment>>)
    ensures BannedNames(a + b) == BannedNames(a) + BannedNames(b)
  {
    var ab := a + b;
    forall n | n in BannedNames(a + b)
      ensures n in BannedNames(a) + BannedNames(b)
    {
      var i :| 0 <= i < |ab| && Qualifies(ab[i]) && ab[i].value.name.value == n;
      if i < |a| {
        assert ab[i] == a[i];
      } else {
        assert ab[i] == b[i - |a|];
      }
    }
    forall n | n in BannedNames(a) + BannedNames(b)
      ensures n in BannedNames(a + b)
    {
      if n in BannedNames(a) {
        var i :| 0 <= i < |a| && Qualifies(a[i]) && a[i].value.name.value == n;
        assert ab[i] == a[i];
      } else {
        var i :| 0 <= i < |b| && Qualifies(b[i]) && b[i].value.name.value == n;
        assert ab[|a| + i] == b[i];
      }
    }
  }

  /** An expired, unnamed or non-ban entry, or a null one, never adds a name. */
  lemma NonQualifyingIgnored(entries: seq<Option<Punishment>>, entry: Option<Punishment>)
    requires !Qualifies(entry)
    ensures BannedNames(entries + [entry]) == BannedNames(entries)
  {
    BannedNamesAppend(entries, [entry]);
    assert BannedNames([entry]) == {};
  }
}
