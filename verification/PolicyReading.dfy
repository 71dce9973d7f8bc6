/** Which payloads `validate_access_policy` accepts, and what it reads in them field by field
    (src/access_policy.py). */
module PolicyReading {
  import opened Results
  import opened Text
  import opened Uniques
  import opened AccessPolicy

  // ---------- Lists ----------

  /** A list is read exactly if each of its items is. */
  lemma {:induction false} ReadAllExact<A(!new), B(!new)>(read: A -> Result<B>, items: seq<A>)
    ensures ReadAll(read, items).Ok? <==> forall i :: 0 <= i < |items| ==> read(items[i]).Ok?
    ensures ReadAll(read, items).Ok? ==>
              && |ReadAll(read, items).value| == |items|
              && forall i :: 0 <= i < |items| ==> read(items[i]) == Ok(ReadAll(read, items).value[i])
  {
    if items != [] {
      ReadAllExact(read, items[..|items| - 1]);
    }
  }

  /** A list of at most so many texts, none of them blank */
  predicate IsTextList(v: Json, maximum: nat) {
    v.List? && |v.items| <= maximum
    && forall i :: 0 <= i < |v.items| ==> v.items[i].Text? && Strip(v.items[i].text) != []
  }

  /** The texts without the space around them */
  function Trimmed(v: Json): seq<string>
    requires v.List? && forall i :: 0 <= i < |v.items| ==> v.items[i].Text?
  {
    seq(|v.items|, i requires 0 <= i < |v.items| => Strip(v.items[i].text))
  }

  lemma TextsAreRead(items: seq<Json>)
    ensures ReadAll(ReadEntry, items).Ok? <==>
            forall i :: 0 <= i < |items| ==> items[i].Text? && Strip(items[i].text) != []
  {
    ReadAllExact(ReadEntry, items);
    forall i | 0 <= i < |items|
      ensures ReadEntry(items[i]).Ok? <==> items[i].Text? && Strip(items[i].text) != [] {}
  }

  lemma TrimmedIsRead(v: Json)
    requires v.List? && forall i :: 0 <= i < |v.items| ==> v.items[i].Text? && Strip(v.items[i].text) != []
    ensures ReadAll(ReadEntry, v.items) == Ok(Trimmed(v))
  {
    var texts := Trimmed(v);
    forall i | 0 <= i < |texts| ensures ReadEntry(v.items[i]) == Ok(texts[i]) {}
    ReadWritten(ReadEntry, v.items, texts);
  }

  /** `_string_list` accepts exactly such lists, and gives the texts trimmed, the first of each spelling. */
  lemma EntriesExact(c: Conventions, v: Json, maximum: nat)
    ensures ReadEntries(c, v, maximum).Ok? <==> IsTextList(v, maximum)
    ensures IsTextList(v, maximum) ==> ReadEntries(c, v, maximum) == Ok(Unique(c.fold, Trimmed(v)))
  {
    if v.List? {
      TextsAreRead(v.items);
      if IsTextList(v, maximum) { TrimmedIsRead(v); }
    }
  }

  // ---------- Users ----------

  /** The items as texts */
  function Plains(c: Conventions, items: seq<Json>): seq<string> {
    seq(|items|, i requires 0 <= i < |items| => Plain(c, items[i]))
  }

  /** The clients of a user are well formed: at most a hundred in a list, or the one of an old entry. */
  predicate HasClients(c: Conventions, fields: map<Key, Json>) {
    if ClientIds in fields
    then fields[ClientIds].List? && |fields[ClientIds].items| <= 100 && AllIds(Plains(c, fields[ClientIds].items))
    else IsClientId(Plain(c, Get(fields, ClientId, Null)))
  }

  /** The clients of a user, each once */
  function ClientsIn(c: Conventions, fields: map<Key, Json>): seq<string>
    requires HasClients(c, fields)
  {
    if ClientIds in fields then Unique(Self, Plains(c, fields[ClientIds].items))
    else [Plain(c, Get(fields, ClientId, Null))]
  }

  lemma ClientIdsExact(c: Conventions, fields: map<Key, Json>)
    ensures ReadClientIds(c, fields).Ok? <==> HasClients(c, fields)
    ensures HasClients(c, fields) ==> ReadClientIds(c, fields) == Ok(ClientsIn(c, fields))
  {
    if ClientIds in fields && fields[ClientIds].List? {
      var items := fields[ClientIds].items;
      ReadAllExact(ClientReader(c), items);
      forall i | 0 <= i < |items|
        ensures ClientReader(c)(items[i]).Ok? <==> IsClientId(Plains(c, items)[i]) {}
      if ReadAll(ClientReader(c), items).Ok? {
        assert ReadAll(ClientReader(c), items).value == Plains(c, items);
      }
    }
  }

  /** An entry that can be read: an object with a name, with clients, and with addresses if any. */
  predicate IsUserEntry(c: Conventions, v: Json) {
    && v.Object? && IsUsername(Plain(c, Get(v.fields, Username, Null))) && HasClients(c, v.fields)
    && (Ips in v.fields ==> IsTextList(v.fields[Ips], 100))
  }

  /** What the entry says of the user: a developer is one of whom it says `true`, and nothing else. */
  ghost predicate Says(c: Conventions, v: Json, u: User)
    requires IsUserEntry(c, v)
  {
    && u.username == Plain(c, Get(v.fields, Username, Null)) && u.clientIds == ClientsIn(c, v.fields)
    && (u.developer <==> Developer in v.fields && v.fields[Developer] == True)
    && u.ips == (if Ips in v.fields then Unique(c.fold, Trimmed(v.fields[Ips])) else [])
    && u.first == (if FirstSeenAt in v.fields then Plain(c, v.fields[FirstSeenAt]) else [])
    && u.last == (if LastSeenAt in v.fields then Plain(c, v.fields[LastSeenAt]) else [])
  }

  lemma UserExact(c: Conventions, v: Json)
    ensures ReadUser(c, v).Ok? <==> IsUserEntry(c, v)
    ensures IsUserEntry(c, v) ==> Says(c, v, ReadUser(c, v).value)
  {
    if v.Object? {
      ClientIdsExact(c, v.fields);
      EntriesExact(c, Get(v.fields, Ips, List([])), MAX_PER_USER);
      NothingListed(c);
    }
  }

  lemma NothingListed(c: Conventions)
    ensures Unique(c.fold, Trimmed(List([]))) == []
  {
  }

  // ---------- The policy ----------

  lemma LettersAtEnds(s: string)
    requires s != [] && 'a' <= s[0] <= 'z' && 'a' <= s[|s| - 1] <= 'z'
    ensures IsEntry(s)
  {
  }

  lemma DefaultToolsGood()
    ensures AllEntries(DEFAULT_TOOLS) && |DEFAULT_TOOLS| <= MAX_FILTERED_TOOLS
  {
    var tools := DEFAULT_TOOLS;
    forall i | 0 <= i < |tools| ensures IsEntry(tools[i]) { LettersAtEnds(tools[i]); }
  }

  lemma EntriesAreText(ts: seq<string>, maximum: nat)
    requires AllEntries(ts) && |ts| <= maximum
    ensures IsTextList(TextList(ts), maximum) && Trimmed(TextList(ts)) == ts
  {
  }

  /** A list of at most a thousand entries that can be read */
  predicate IsUserList(c: Conventions, v: Json) {
    v.List? && |v.items| <= 1000 && forall i :: 0 <= i < |v.items| ==> IsUserEntry(c, v.items[i])
  }

  /** A payload that is well formed, whoever its clients belong to */
  predicate IsPolicy(c: Conventions, payload: Json) {
    && payload.Object? && (forall k <- payload.fields :: k == Users || k == FilteredTools)
    && (Users in payload.fields ==> IsUserList(c, payload.fields[Users]))
    && (FilteredTools in payload.fields ==> IsTextList(payload.fields[FilteredTools], 500))
  }

  /** The entries of the users, if there are any */
  function Entries(c: Conventions, payload: Json): seq<Json>
    requires IsPolicy(c, payload)
  {
    if Users in payload.fields then payload.fields[Users].items else []
  }

  /** The tools that the payload keeps from users, or those kept from them by default */
  function ToolsIn(c: Conventions, payload: Json): seq<string>
    requires IsPolicy(c, payload)
  {
    Unique(c.fold, if FilteredTools in payload.fields then Trimmed(payload.fields[FilteredTools]) else DEFAULT_TOOLS)
  }

  /** These are what the entries say. */
  ghost predicate AllSaid(c: Conventions, items: seq<Json>, users: seq<User>) {
    |users| == |items| && forall i :: 0 <= i < |items| ==> IsUserEntry(c, items[i]) && Says(c, items[i], users[i])
  }

  lemma EntriesAreRead(c: Conventions, items: seq<Json>)
    ensures ReadAll(UserReader(c), items).Ok? <==> forall i :: 0 <= i < |items| ==> IsUserEntry(c, items[i])
    ensures ReadAll(UserReader(c), items).Ok? ==> AllSaid(c, items, ReadAll(UserReader(c), items).value)
  {
    ReadAllExact(UserReader(c), items);
    forall i | 0 <= i < |items|
      ensures UserReader(c)(items[i]).Ok? <==> IsUserEntry(c, items[i])
      ensures UserReader(c)(items[i]).Ok? ==> Says(c, items[i], UserReader(c)(items[i]).value)
    {
      UserExact(c, items[i]);
    }
  }

  lemma PartsExact(c: Conventions, raw: Json, tools: Json) returns (entries: seq<User>)
    ensures IsUserList(c, raw) ==> AllSaid(c, raw.items, entries)
    ensures ValidateParts(c, raw, tools).Ok? <==>
            IsUserList(c, raw) && IsTextList(tools, MAX_FILTERED_TOOLS) && Apart(Gathered(c, entries))
    ensures ValidateParts(c, raw, tools).Ok? ==>
              ValidateParts(c, raw, tools).value == Policy(Gathered(c, entries), Unique(c.fold, Trimmed(tools)))
  {
    entries := [];
    EntriesExact(c, tools, MAX_FILTERED_TOOLS);
    if raw.List? {
      EntriesAreRead(c, raw.items);
      var read := ReadAll(UserReader(c), raw.items);
      entries := if read.Ok? then read.value else [];
    }
  }

  /** A payload is well formed if its parts are, what is missing taken from the defaults. */
  lemma PartsOfPolicy(c: Conventions, payload: Json, defaults: seq<string>, tools: Json)
    requires payload.Object? && payload.fields.Keys <= {Users, FilteredTools}
    requires AllEntries(defaults) && |defaults| <= MAX_FILTERED_TOOLS
    requires tools == Get(payload.fields, FilteredTools, TextList(defaults))
    ensures var raw := Get(payload.fields, Users, List([]));
            && (IsPolicy(c, payload) <==> IsUserList(c, raw) && IsTextList(tools, MAX_FILTERED_TOOLS))
            && (IsPolicy(c, payload) ==>
                  && Entries(c, payload) == raw.items
                  && Trimmed(tools) == if FilteredTools in payload.fields then Trimmed(tools) else defaults)
  {
    EntriesAreText(defaults, MAX_FILTERED_TOOLS);
  }

  lemma OtherKeys(payload: Json)
    requires payload.Object?
    ensures payload.fields.Keys <= {Users, FilteredTools} <==>
            forall k <- payload.fields :: k == Users || k == FilteredTools
  {
  }

  /** A payload is accepted exactly if it is well formed and no client has two users once the entries of one name
      are one user; and then its users are what the entries say, those of one name joined. */
  lemma ValidateExact(c: Conventions, payload: Json) returns (entries: seq<User>)
    ensures IsPolicy(c, payload) ==> AllSaid(c, Entries(c, payload), entries)
    ensures Validate(c, payload).Ok? <==> IsPolicy(c, payload) && Apart(Gathered(c, entries))
    ensures Validate(c, payload).Ok? ==>
              Validate(c, payload).value == Policy(Gathered(c, entries), ToolsIn(c, payload))
  {
    entries := [];
    if payload.Object? {
      OtherKeys(payload);
      if payload.fields.Keys <= {Users, FilteredTools} {
        var tools := Get(payload.fields, FilteredTools, TextList(DEFAULT_TOOLS));
        DefaultToolsGood();
        PartsOfPolicy(c, payload, DEFAULT_TOOLS, tools);
        entries := PartsExact(c, Get(payload.fields, Users, List([])), tools);
      }
    }
  }
}
