/** How users are named to the kernels, and how the names are resolved back. */
module Identity {
  import opened Wrappers
  import opened Panel
  import opened Decimal
  import opened Store

  datatype Naming = ById | ByUuid

  /** Which name the inbound of a protocol gives its users; None for protocols it does not know. */
  function NamingOf(protocol: string): Option<Naming> {
    if protocol in {"shadowsocks", "vmess", "vless", "trojan", "hysteria", "hysteria2", "tuic", "anytls"} then Some(ById)
    else if protocol in {"socks", "http", "naive"} then Some(ByUuid)
    else None
  }

  function NameOf(naming: Naming, user: User): string {
    if naming == ById then FormatInt(user.id) else user.uuid
  }

  function NamesOf(naming: Naming, users: seq<User>): seq<string> {
    seq(|users|, i requires 0 <= i < |users| => NameOf(naming, users[i]))
  }

  /** mapUsers for the inbound's user list. */
  method InboundNames(protocol: string, users: seq<User>) returns (names: Option<seq<string>>)
    ensures NamingOf(protocol).None? ==> names == None
    ensures NamingOf(protocol).Some? ==> names == Some(NamesOf(NamingOf(protocol).value, users))
    ensures names.Some? ==> |names.value| == |users|
    ensures protocol in {"socks", "http", "naive"} ==>
              names.Some? && forall i | 0 <= i < |users| :: names.value[i] == users[i].uuid
    ensures protocol in {"shadowsocks", "vmess", "vless", "trojan", "hysteria", "hysteria2", "tuic", "anytls"} ==>
              names.Some? && forall i | 0 <= i < |users| :: names.value[i] == FormatInt(users[i].id)
    ensures protocol !in {"socks", "http", "naive", "shadowsocks", "vmess", "vless", "trojan", "hysteria", "hysteria2", "tuic", "anytls"}
            ==> names == None
  {
    var naming := NamingOf(protocol);
    if naming.None? {
      return None;
    }
    var result: seq<string> := [];
    for i := 0 to |users|
      invariant |result| == i && forall k | 0 <= k < i :: result[k] == NameOf(naming.value, users[k])
    {
      result := result + [NameOf(naming.value, users[i])];
    }
    assert result == NamesOf(naming.value, users);
    return Some(result);
  }

  /** tracker.resolveUser: a name that parses as an int64 is an identifier, any other a secret. */
  function Resolve(secrets: Secrets, name: string): Option<Int64> {
    var parsed := ParseInt(name);
    if parsed.error == NoError then Some(parsed.value)
    else if name in secrets then Some(secrets[name])
    else None
  }

  /** A name that is no numeral, as a UUID that begins with a letter, is looked up as a secret. */
  lemma LetterNamesAreSecrets(secrets: Secrets, name: string)
    requires name == "" || name[0] !in "+-0123456789"
    ensures Resolve(secrets, name) == if name in secrets then Some(secrets[name]) else None
  {
    ParseIntIff(name);
    if name != "" {
      assert name[0] in name && name[0] !in DIGITS;
    }
  }

  /** Users named by identifier resolve to themselves whatever list was applied last, anywhere. */
  lemma NumericNamesResolve(secrets: Secrets, user: User)
    ensures Resolve(secrets, NameOf(ById, user)) == Some(user.id)
  {
    ParseFormat(user.id);
  }

  /**
   Users named by UUID: the name resolves to the user exactly if it parses as that very identifier, or
   does not parse and the last entry for it, in the list applied last by whichever node, is this user's.
   */
  lemma UuidNamesResolveIff(applied: seq<User>, user: User)
    ensures Resolve(SecretMap(applied), NameOf(ByUuid, user)) == Some(user.id)
            <==> if ParseInt(user.uuid).error == NoError then ParseInt(user.uuid).value == user.id
                 else exists i: nat :: LastWith(applied, i, user.uuid) && applied[i].id == user.id
  {
    SecretMapIsLast(applied, user.uuid);
  }

  predicate DistinctUuids(users: seq<User>) {
    forall i, j | 0 <= i < j < |users| :: users[i].uuid != users[j].uuid
  }

  /** For the list applied last, with distinct UUIDs none of which is a number, every name of every protocol resolves. */
  lemma AppliedListResolves(users: seq<User>, naming: Naming, i: nat)
    requires i < |users| && DistinctUuids(users)
    requires naming == ByUuid ==> ParseInt(users[i].uuid).error != NoError
    ensures Resolve(SecretMap(users), NameOf(naming, users[i])) == Some(users[i].id)
  {
    match naming
    case ById => NumericNamesResolve(SecretMap(users), users[i]);
    case ByUuid =>
      assert LastWith(users, i, users[i].uuid);
      UuidNamesResolveIff(users, users[i]);
  }

  /** One node's apply makes the UUID names of another node's users unresolvable. */
  lemma OtherNodesListEvicts(user: User, other: User)
    requires ParseInt(user.uuid).error != NoError && other.uuid != user.uuid
    ensures Resolve(SecretMap([user]), NameOf(ByUuid, user)) == Some(user.id)
    ensures Resolve(SecretMap([other]), NameOf(ByUuid, user)) == None
  {
    AppliedListResolves([user], ByUuid, 0);
    SecretMapIsLast([other], user.uuid);
  }
}
