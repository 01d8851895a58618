/**
 * The status a Go run posts: the visibility enumeration with its validity check, the
 * `MastodonStatus` request record, and its JSON encoding, in which the optional fields
 * carry `omitempty` and vanish when they hold their zero value.
 */
module Status {

  const VisibilityPublic := "public"
  const VisibilityUnlisted := "unlisted"
  const VisibilityPrivate := "private"
  const VisibilityDirect := "direct"

  /** `VisibilityType.IsValid`: a case-sensitive match against the four constants. */
  predicate IsValid(vt: string) {
    vt == VisibilityPublic || vt == VisibilityUnlisted || vt == VisibilityPrivate || vt == VisibilityDirect
  }

  /** The only accepted values are the four named ones; in particular no default stands in for "". */
  lemma IsValidExactly(vt: string)
    ensures IsValid(vt) <==> vt in {"public", "unlisted", "private", "direct"}
    ensures !IsValid("") && !IsValid("Public") && !IsValid("followers-only")
  {
  }

  /** The request body of `POST /api/v1/statuses`. */
  datatype MastodonStatus = MastodonStatus(
    status: string,
    visibility: string,
    sensitive: bool,
    spoilerText: string,
    language: string,
    scheduledAt: string)

  /** The zero value a decoder starts from. */
  const ZeroStatus := MastodonStatus("", "", false, "", "", "")

  /** The JSON values the encoding uses. */
  datatype Json = JString(str: string) | JBool(b: bool)

  /** One member of a JSON object: its key and its value. */
  type Member = (string, Json)

  /** The keys a JSON object carries. */
  function Keys(p: seq<Member>): set<string> {
    if p == [] then {} else {p[0].0} + Keys(p[1..])
  }

  lemma {:induction false} KeysAppend(p: seq<Member>, q: seq<Member>)
    ensures Keys(p + q) == Keys(p) + Keys(q)
    decreases |p|
  {
    if p != [] {
      assert (p + q)[1..] == p[1..] + q;
      KeysAppend(p[1..], q);
    } else {
      assert p + q == q;
    }
  }

  /** A string member that `omitempty` drops when the string is empty. */
  function OmitEmpty(key: string, value: string): seq<Member> {
    if value == "" then [] else [(key, JString(value))]
  }

  /** `json.Marshal(status)`: the members in declaration order, optional ones only when set. */
  function Marshal(st: MastodonStatus): seq<Member> {
    [("status", JString(st.status)), ("visibility", JString(st.visibility))]
    + (if st.sensitive then [("sensitive", JBool(true))] else [])
    + OmitEmpty("spoiler_text", st.spoilerText)
    + OmitEmpty("language", st.language)
    + OmitEmpty("scheduled_at", st.scheduledAt)
  }

  /**
   * The encoded object always opens with `status` and `visibility` holding the record's
   * values; `sensitive` appears only when true and the three optional strings only when
   * non-empty; no other key appears.
   */
  lemma MarshalKeys(st: MastodonStatus)
    ensures |Marshal(st)| >= 2
    ensures Marshal(st)[0] == ("status", JString(st.status))
    ensures Marshal(st)[1] == ("visibility", JString(st.visibility))
    ensures Keys(Marshal(st)) <= {"status", "visibility", "sensitive", "spoiler_text", "language", "scheduled_at"}
    ensures "sensitive" in Keys(Marshal(st)) <==> st.sensitive
    ensures "spoiler_text" in Keys(Marshal(st)) <==> st.spoilerText != ""
    ensures "language" in Keys(Marshal(st)) <==> st.language != ""
    ensures "scheduled_at" in Keys(Marshal(st)) <==> st.scheduledAt != ""
  {
    var head := [("status", JString(st.status)), ("visibility", JString(st.visibility))];
    var sens: seq<Member> := if st.sensitive then [("sensitive", JBool(true))] else [];
    var spoiler := OmitEmpty("spoiler_text", st.spoilerText);
    var lang := OmitEmpty("language", st.language);
    var sched := OmitEmpty("scheduled_at", st.scheduledAt);
    assert Marshal(st) == head + sens + spoiler + lang + sched;
    KeysAppend(head + sens + spoiler + lang, sched);
    KeysAppend(head + sens + spoiler, lang);
    KeysAppend(head + sens, spoiler);
    KeysAppend(head, sens);
    assert Keys(head) == {"status", "visibility"} by {
      assert head[1..][1..] == [];
    }
    assert Keys(sens) == if st.sensitive then {"sensitive"} else {} by {
      if st.sensitive { assert sens[1..] == []; }
    }
    assert Keys(spoiler) == if st.spoilerText == "" then {} else {"spoiler_text"} by {
      if st.spoilerText != "" { assert spoiler[1..] == []; }
    }
    assert Keys(lang) == if st.language == "" then {} else {"language"} by {
      if st.language != "" { assert lang[1..] == []; }
    }
    assert Keys(sched) == if st.scheduledAt == "" then {} else {"scheduled_at"} by {
      if st.scheduledAt != "" { assert sched[1..] == []; }
    }
  }

  /** Stores one member into the record, as a decoder does for a key it knows; other members are skipped. */
  function Store(st: MastodonStatus, m: Member): MastodonStatus {
    match m
    case ("status", JString(s)) => st.(status := s)
    case ("visibility", JString(s)) => st.(visibility := s)
    case ("sensitive", JBool(b)) => st.(sensitive := b)
    case ("spoiler_text", JString(s)) => st.(spoilerText := s)
    case ("language", JString(s)) => st.(language := s)
    case ("scheduled_at", JString(s)) => st.(scheduledAt := s)
    case _ => st
  }

  /** Stores the members in order, later ones overwriting earlier ones. */
  function StoreAll(st: MastodonStatus, p: seq<Member>): MastodonStatus
    decreases |p|
  {
    if p == [] then st else StoreAll(Store(st, p[0]), p[1..])
  }

  /** `json.Unmarshal` into a fresh record: absent fields keep their zero value. */
  function Unmarshal(p: seq<Member>): MastodonStatus {
    StoreAll(ZeroStatus, p)
  }

  lemma {:induction false} StoreAllAppend(st: MastodonStatus, p: seq<Member>, q: seq<Member>)
    ensures StoreAll(st, p + q) == StoreAll(StoreAll(st, p), q)
    decreases |p|
  {
    if p != [] {
      assert (p + q)[0] == p[0] && (p + q)[1..] == p[1..] + q;
      StoreAllAppend(Store(st, p[0]), p[1..], q);
    } else {
      assert p + q == q;
    }
  }

  /** Decoding the encoding gives back the record: omitted fields are exactly the zero-valued ones. */
  lemma MarshalRoundTrip(st: MastodonStatus)
    ensures Unmarshal(Marshal(st)) == st
  {
    var head := [("status", JString(st.status)), ("visibility", JString(st.visibility))];
    var sens: seq<Member> := if st.sensitive then [("sensitive", JBool(true))] else [];
    var spoiler := OmitEmpty("spoiler_text", st.spoilerText);
    var lang := OmitEmpty("language", st.language);
    var sched := OmitEmpty("scheduled_at", st.scheduledAt);
    assert Marshal(st) == head + sens + spoiler + lang + sched;
    StoreAllAppend(ZeroStatus, head + sens + spoiler + lang, sched);
    StoreAllAppend(ZeroStatus, head + sens + spoiler, lang);
    StoreAllAppend(ZeroStatus, head + sens, spoiler);
    StoreAllAppend(ZeroStatus, head, sens);
    var s1 := StoreAll(ZeroStatus, head);
    assert head[1..][1..] == [];
    assert Store(ZeroStatus, head[0]) == ZeroStatus.(status := st.status);
    assert Store(ZeroStatus.(status := st.status), head[1..][0]) == ZeroStatus.(status := st.status, visibility := st.visibility);
    assert s1 == StoreAll(ZeroStatus.(status := st.status), head[1..]);
    assert StoreAll(ZeroStatus.(status := st.status), head[1..])
        == StoreAll(ZeroStatus.(status := st.status, visibility := st.visibility), []);
    assert s1 == ZeroStatus.(status := st.status, visibility := st.visibility);
    var s2 := StoreAll(s1, sens);
    assert s2 == s1.(sensitive := st.sensitive);
    var s3 := StoreAll(s2, spoiler);
    assert s3 == s2.(spoilerText := st.spoilerText);
    var s4 := StoreAll(s3, lang);
    assert s4 == s3.(language := st.language);
    assert StoreAll(s4, sched) == st;
  }
}
