/** The stored access policy and its normalisation (src/access_policy.py). `str.casefold` and the text
    of values that are not strings are parameters. */
module AccessPolicy {
  import opened Results
  import opened Text
  import opened Uniques

  const MAX_USERS := 1000
  const MAX_FILTERED_TOOLS := 500
  const MAX_PER_USER := 100

  /** The field names that the code looks up, and all others */
  datatype Key =
    | Users | FilteredTools
    | Username | ClientIds | ClientId | Ips | Developer | FirstSeenAt | LastSeenAt
    | Other(name: string)

  /** A value as `json.load` gives it */
  datatype Json =
    | Null | False | True | Number(value: real) | Text(text: string)
    | List(items: seq<Json>) | Object(fields: map<Key, Json>)

  datatype Conventions = Conventions(fold: string -> string, show: Json -> string)

  datatype User = User(clientIds: seq<string>, username: string, developer: bool, ips: seq<string>,
                       first: string, last: string)

  datatype Policy = Policy(users: seq<User>, filtered: seq<string>)

  // ---------- Reading values ----------

  function Get(fields: map<Key, Json>, key: Key, otherwise: Json): Json {
    if key in fields then fields[key] else otherwise
  }

  /** `str(value or "").strip()` */
  function Plain(c: Conventions, v: Json): string {
    match v
    case Text(s) => Strip(s)
    case Null => [] case False => []
    case Number(n) => if n == 0.0 then [] else Strip(c.show(v))
    case List(items) => if items == [] then [] else Strip(c.show(v))
    case Object(fields) => if fields == map[] then [] else Strip(c.show(v))
    case True => Strip(c.show(v))
  }

  predicate IsAlnum(x: char) { 'A' <= x <= 'Z' || 'a' <= x <= 'z' || '0' <= x <= '9' }

  predicate IsIdChar(x: char) { IsAlnum(x) || x == '.' || x == '_' || x == ':' || x == '-' }

  /** `_CLIENT_ID_RE` */
  predicate IsClientId(s: string) {
    1 <= |s| <= 128 && IsAlnum(s[0]) && forall i :: 0 <= i < |s| ==> IsIdChar(s[i])
  }

  predicate IsUsername(s: string) {
    1 <= |s| <= 80 && Stripped(s) && forall i :: 0 <= i < |s| ==> s[i] as int >= 32
  }

  predicate IsEntry(s: string) { s != [] && Stripped(s) }

  function ReadClientId(c: Conventions, v: Json): Result<string> {
    var s := Plain(c, v);
    if IsClientId(s) then Ok(s) else Err("clientId is invalid")
  }

  function ReadUsername(c: Conventions, v: Json): Result<string> {
    var s := Plain(c, v);
    if IsUsername(s) then Ok(s) else Err("username must contain 1 to 80 visible characters")
  }

  function ReadEntry(v: Json): Result<string> {
    if v.Text? && Strip(v.text) != [] then Ok(Strip(v.text)) else Err("must be a non-empty string")
  }

  function ClientReader(c: Conventions): Json -> Result<string> { v => ReadClientId(c, v) }
  function UserReader(c: Conventions): Json -> Result<User> { v => ReadUser(c, v) }
  function Self(s: string): string { s }
  function Owner(c: Conventions): User -> string { (u: User) => c.fold(u.username) }

  /** `_string_list` */
  function ReadEntries(c: Conventions, v: Json, maximum: nat): Result<seq<string>> {
    if !v.List? then Err("must be an array") else
    if |v.items| > maximum then Err("too many entries") else ReadUnique(ReadEntry, c.fold, v.items)
  }

  /** `_user_client_ids` */
  function ReadClientIds(c: Conventions, fields: map<Key, Json>): Result<seq<string>> {
    if ClientIds !in fields then
      match ReadClientId(c, Get(fields, ClientId, Null)) case Err(e) => Err(e) case Ok(id) => Ok([id])
    else if !fields[ClientIds].List? then Err("clientIds must be an array")
    else if |fields[ClientIds].items| > MAX_PER_USER then Err("too many clientIds")
    else ReadUnique(ClientReader(c), Self, fields[ClientIds].items)
  }

  function ReadUser(c: Conventions, v: Json): Result<User> {
    if !v.Object? then Err("must be an object") else
      match ReadUsername(c, Get(v.fields, Username, Null))
      case Err(e) => Err(e)
      case Ok(username) =>
        match ReadClientIds(c, v.fields)
        case Err(e) => Err(e)
        case Ok(ids) =>
          match ReadEntries(c, Get(v.fields, Ips, List([])), MAX_PER_USER)
          case Err(e) => Err(e)
          case Ok(ips) => Ok(User(ids, username, Get(v.fields, Developer, Null) == True, ips,
                                  Plain(c, Get(v.fields, FirstSeenAt, Null)),
                                  Plain(c, Get(v.fields, LastSeenAt, Null))))
  }

  // ---------- Merging users ----------

  /** Of two dates the one that comes first in an order, a missing one last */
  function Preferred(before: (string, string) -> bool, a: string, b: string): string {
    if a == [] then b else if b == [] || before(a, b) then a else b
  }

  predicate Above(a: string, b: string) { Below(b, a) }

  /** `_earliest_nonempty` */
  function Earliest(a: string, b: string): string { Preferred(Below, a, b) }

  /** `_latest_nonempty` */
  function Newest(a: string, b: string): string { Preferred(Above, a, b) }

  /** `_merge_unique` */
  function MergeLists(c: Conventions, left: seq<string>, right: seq<string>): seq<string> {
    Latest(MAX_PER_USER, Unique(c.fold, left + right))
  }

  /** `_merge_same_username_users` */
  function Merge(c: Conventions, a: User, b: User): User {
    User(MergeLists(c, a.clientIds, b.clientIds), a.username, a.developer || b.developer,
         MergeLists(c, a.ips, b.ips), Earliest(a.first, b.first), Newest(a.last, b.last))
  }

  /** Another entry joins the user of the same name, if there is one. */
  function Joined(c: Conventions, users: seq<User>, u: User): seq<User> {
    match FirstWith(Owner(c), users, Owner(c)(u))
    case None => users + [u]
    case Some(i) => users[i := Merge(c, users[i], u)]
  }

  /** The users after the loop of `validate_access_policy` over these entries */
  function Gathered(c: Conventions, entries: seq<User>): seq<User> {
    if entries == [] then [] else Joined(c, Gathered(c, entries[..|entries| - 1]), entries[|entries| - 1])
  }

  /** No client identifier has two users. */
  predicate Apart(users: seq<User>) {
    forall i, j, id :: 0 <= i < j < |users| && id in users[i].clientIds ==> id !in users[j].clientIds
  }

  const DEFAULT_TOOLS: seq<string> := [
    "agent_patch_tools", "apply_patch_tool", "capability_management_tools", "code_edit_tools", "console_tools",
    "console_session_tools", "file_write_tools", "shell_tools", "system_tools"]

  /** `validate_access_policy` */
  function Validate(c: Conventions, payload: Json): Result<Policy> {
    if !payload.Object? then Err("access policy must be an object") else
    if !(payload.fields.Keys <= {Users, FilteredTools}) then Err("unsupported access policy fields") else
      ValidateParts(c, Get(payload.fields, Users, List([])),
                    Get(payload.fields, FilteredTools, TextList(DEFAULT_TOOLS)))
  }

  function ValidateParts(c: Conventions, raw: Json, tools: Json): Result<Policy> {
    if !raw.List? then Err("users must be an array") else
    if |raw.items| > MAX_USERS then Err("too many users") else
      match ReadAll(UserReader(c), raw.items)
      case Err(e) => Err(e)
      case Ok(entries) =>
        var users := Gathered(c, entries);
        if !Apart(users) then Err("clientId belongs to multiple usernames") else
          match ReadEntries(c, tools, MAX_FILTERED_TOOLS)
          case Err(e) => Err(e)
          case Ok(filtered) => Ok(Policy(users, filtered))
  }

  // ---------- Writing ----------

  function TextList(ts: seq<string>): Json { List(seq(|ts|, i requires 0 <= i < |ts| => Text(ts[i]))) }

  function UserJson(u: User): Json { Object(UserFields(u)) }

  function UserFields(u: User): map<Key, Json> {
    map[ClientIds := TextList(u.clientIds), Username := Text(u.username),
               Developer := if u.developer then True else False, Ips := TextList(u.ips),
               FirstSeenAt := Text(u.first), LastSeenAt := Text(u.last)]
  }

  function UserList(users: seq<User>): Json { List(seq(|users|, i requires 0 <= i < |users| => UserJson(users[i]))) }

  function PolicyJson(p: Policy): Json {
    Object(map[Users := UserList(p.users), FilteredTools := TextList(p.filtered)])
  }

  // ---------- Normal policies ----------

  predicate AllIds(ids: seq<string>) { forall i :: 0 <= i < |ids| ==> IsClientId(ids[i]) }
  predicate AllEntries(ts: seq<string>) { forall i :: 0 <= i < |ts| ==> IsEntry(ts[i]) }

  /** A user as it may be stored: all is in order, but addresses may differ in case only. */
  predicate Storable(u: User) {
    && IsUsername(u.username)
    && AllIds(u.clientIds) && Distinct(Self, u.clientIds) && |u.clientIds| <= MAX_PER_USER
    && AllEntries(u.ips) && |u.ips| <= MAX_PER_USER
    && Stripped(u.first) && Stripped(u.last)
  }

  predicate AllStorable(users: seq<User>) { forall i :: 0 <= i < |users| ==> Storable(users[i]) }

  predicate IpsDistinct(c: Conventions, users: seq<User>) {
    forall i :: 0 <= i < |users| ==> Distinct(c.fold, users[i].ips)
  }

  predicate Sound(c: Conventions, p: Policy) {
    && |p.users| <= MAX_USERS && AllStorable(p.users)
    && Distinct(Owner(c), p.users) && Apart(p.users)
    && AllEntries(p.filtered) && |p.filtered| <= MAX_FILTERED_TOOLS
  }

  predicate Normal(c: Conventions, p: Policy) {
    Sound(c, p) && IpsDistinct(c, p.users) && Distinct(c.fold, p.filtered)
  }
}
