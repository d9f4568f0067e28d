/**
 * The persistence contract for machine snapshots (src/stateMachine/stateMachine.helper.ts, lines 189-339):
 * which snapshots are worth saving, how a saved one is sanitized so it resumes paused, and which stored
 * payloads are accepted on load. A snapshot is a JSON object; storage is the already-parsed stored value.
 */
module SnapshotPersistence {
  import opened Wrappers

  /** A JSON value; numbers are integers here (the persisted fields are counters and timestamps). */
  datatype Json =
    | JNull
    | JBool(b: bool)
    | JNum(n: int)
    | JStr(s: string)
    | JArr(items: seq<Json>)
    | JObj(fields: map<string, Json>)

  /** A JSON object, e.g. a machine snapshot or its context. */
  type Record = map<string, Json>

  const PERSIST_VERSION := 1
  const PAUSED := JStr("paused")

  /** Property access: a missing key reads as `undefined`, modelled as None. */
  function Get(m: Record, key: string): Option<Json> {
    if key in m then Some(m[key]) else None
  }

  /** JavaScript truthiness of a JSON value (or of `undefined`). */
  predicate Truthy(v: Option<Json>) {
    match v
    case None => false
    case Some(j) =>
      match j
      case JNull => false
      case JBool(b) => b
      case JNum(n) => n != 0
      case JStr(s) => s != ""
      case JArr(_) => true
      case JObj(_) => true
  }

  /** `v && typeof v === "object" && !Array.isArray(v)`: a present, non-null, non-array object. */
  predicate IsRecord(v: Option<Json>) {
    v.Some? && v.value.JObj?
  }

  // ---------------------------------------------------------------------------
  // Classifying snapshots
  // ---------------------------------------------------------------------------

  /** snapshotLooksLikePlaying: the state value is "playing", or an object with a "playing" region. */
  function LooksLikePlaying(s: Record): (r: bool)
    ensures r ==> Get(s, "value").Some? && Get(s, "value") != Some(JStr("gameOver")) && Get(s, "value") != Some(JStr("lobby"))
  {
    var value := Get(s, "value");
    if value == Some(JStr("playing")) then true
    else if !IsRecord(value) then false
    else "playing" in value.value.fields
  }

  /** shouldPersistSnapshot: never a finished game; a lobby only once it has players; anything else always. */
  function ShouldPersist(s: Record): (r: bool)
    ensures r ==> Get(s, "value") != Some(JStr("gameOver"))
    ensures r && Get(s, "value") == Some(JStr("lobby")) ==> IsRecord(Get(s, "context"))
  {
    var value := Get(s, "value");
    if value == Some(JStr("gameOver")) then false
    else if value != Some(JStr("lobby")) then true
    else
      var context := Get(s, "context");
      if !IsRecord(context) then false
      else
        var players := Get(context.value.fields, "players");
        players.Some? && players.value.JArr? && |players.value.items| > 0
  }

  /** Every snapshot that looks like a running game is one the gateway keeps. */
  lemma PlayingIsPersisted(s: Record)
    ensures LooksLikePlaying(s) ==> ShouldPersist(s)
    ensures Get(s, "value") == Some(JStr("gameOver")) ==> !ShouldPersist(s) && !LooksLikePlaying(s)
  {
  }

  // ---------------------------------------------------------------------------
  // Sanitizing
  // ---------------------------------------------------------------------------

  /** The context as it must be restored: not mounted, nothing selected. */
  function QuietContext(c: Record): (r: Record)
    ensures r.Keys == c.Keys + {"playPageMounted", "selectedCardIds"}
    ensures r["playPageMounted"] == JBool(false) && r["selectedCardIds"] == JArr([])
    ensures forall k :: k in c && k != "playPageMounted" && k != "selectedCardIds" ==> r[k] == c[k]
  {
    c["playPageMounted" := JBool(false)]["selectedCardIds" := JArr([])]
  }

  /** The parallel "playing" region as it must be restored: both timer and turns paused. */
  function PausedPlaying(p: Record): (r: Record)
    ensures r.Keys == p.Keys + {"timer", "turns"}
    ensures r["timer"] == PAUSED && r["turns"] == PAUSED
    ensures forall k :: k in p && k != "timer" && k != "turns" ==> r[k] == p[k]
  {
    p["timer" := PAUSED]["turns" := PAUSED]
  }

  /**
   * sanitizePersistedSnapshot, by what it changes and what it keeps: the same top-level keys; every
   * top-level field other than "context" and "value" untouched; an object context gains playPageMounted = false and an empty
   * selectedCardIds and keeps its other fields; an object "playing" region gets timer and turns "paused" and
   * keeps its other fields, as does the surrounding state value; anything else is left alone.
   */
  function Sanitize(s: Record): (r: Record)
    ensures && r.Keys == s.Keys
            && (forall k :: k in s && k != "context" && k != "value" ==> r[k] == s[k])
            && (!IsRecord(Get(s, "context")) ==> Get(r, "context") == Get(s, "context"))
            && (IsRecord(Get(s, "context")) ==>
                  && IsRecord(Get(r, "context"))
                  && var c := s["context"].fields;
                     var c' := r["context"].fields;
                     && c'.Keys == c.Keys + {"playPageMounted", "selectedCardIds"}
                     && c'["playPageMounted"] == JBool(false)
                     && c'["selectedCardIds"] == JArr([])
                     && forall k :: k in c && k != "playPageMounted" && k != "selectedCardIds" ==> c'[k] == c[k])
            && (!(IsRecord(Get(s, "value")) && IsRecord(Get(s["value"].fields, "playing"))) ==> Get(r, "value") == Get(s, "value"))
            && (IsRecord(Get(s, "value")) && IsRecord(Get(s["value"].fields, "playing")) ==>
                  && IsRecord(Get(r, "value"))
                  && var v := s["value"].fields;
                     var v' := r["value"].fields;
                     && v'.Keys == v.Keys
                     && (forall k :: k in v && k != "playing" ==> v'[k] == v[k])
                     && IsRecord(Get(v', "playing"))
                     && var p := v["playing"].fields;
                        var p' := v'["playing"].fields;
                        && p'.Keys == p.Keys + {"timer", "turns"}
                        && p'["timer"] == PAUSED && p'["turns"] == PAUSED
                        && forall k :: k in p && k != "timer" && k != "turns" ==> p'[k] == p[k])
  {
    var context := Get(s, "context");
    var next := if IsRecord(context) then s["context" := JObj(QuietContext(context.value.fields))] else s;
    var value := Get(next, "value");
    if IsRecord(value) && IsRecord(Get(value.value.fields, "playing")) then
      var playing := value.value.fields["playing"].fields;
      next["value" := JObj(value.value.fields["playing" := JObj(PausedPlaying(playing))])]
    else next
  }

  /** A snapshot in the shape a restored session must have: quiet context, paused playing region. */
  ghost predicate Restorable(s: Record) {
    && (IsRecord(Get(s, "context")) ==>
          var c := s["context"].fields;
          Get(c, "playPageMounted") == Some(JBool(false)) && Get(c, "selectedCardIds") == Some(JArr([])))
    && (IsRecord(Get(s, "value")) && IsRecord(Get(s["value"].fields, "playing")) ==>
          var p := s["value"].fields["playing"].fields;
          Get(p, "timer") == Some(PAUSED) && Get(p, "turns") == Some(PAUSED))
  }

  /** Sanitized snapshots are restorable, and restorable snapshots are left exactly as they are. */
  lemma SanitizeRestorable(s: Record)
    ensures Restorable(Sanitize(s))
    ensures Restorable(s) ==> Sanitize(s) == s
  {
    if Restorable(s) {
      if IsRecord(Get(s, "context")) {
        var c := s["context"].fields;
        assert QuietContext(c) == c;
      }
      if IsRecord(Get(s, "value")) && IsRecord(Get(s["value"].fields, "playing")) {
        var v := s["value"].fields;
        var p := v["playing"].fields;
        assert PausedPlaying(p) == p;
        assert v["playing" := JObj(p)] == v;
      }
    }
  }

  /** Sanitizing twice is sanitizing once. */
  lemma SanitizeIdempotent(s: Record)
    ensures Sanitize(Sanitize(s)) == Sanitize(s)
  {
    SanitizeRestorable(s);
    SanitizeRestorable(Sanitize(s));
  }

  /** Sanitizing changes neither whether a snapshot looks like a running game nor whether it is worth keeping. */
  lemma SanitizeKeepsClassification(s: Record)
    ensures LooksLikePlaying(Sanitize(s)) == LooksLikePlaying(s)
    ensures ShouldPersist(Sanitize(s)) == ShouldPersist(s)
  {
    var r := Sanitize(s);
    if IsRecord(Get(s, "value")) {
      assert IsRecord(Get(r, "value"));
      assert ("playing" in r["value"].fields) == ("playing" in s["value"].fields);
    }
    if IsRecord(Get(s, "context")) {
      assert Get(r["context"].fields, "players") == Get(s["context"].fields, "players");
    }
  }

  // ---------------------------------------------------------------------------
  // Writing and reading the stored payload
  // ---------------------------------------------------------------------------

  /** What persistSnapshot does to storage. */
  datatype StoreAction = Store(payload: Json) | Clear

  /** The stored record `{version: 1, savedAt, snapshot: sanitized}`. */
  function Payload(s: Record, savedAt: int): Json {
    JObj(map["version" := JNum(PERSIST_VERSION), "savedAt" := JNum(savedAt), "snapshot" := JObj(Sanitize(s))])
  }

  /** persistSnapshot, with the clock reading as a parameter: clear storage unless the snapshot is worth keeping. */
  function PersistSnapshot(s: Record, now: int): (a: StoreAction)
    ensures a.Clear? <==> !ShouldPersist(s)
    ensures a.Store? ==> && a.payload.JObj?
                         && Get(a.payload.fields, "version") == Some(JNum(PERSIST_VERSION))
                         && Get(a.payload.fields, "savedAt") == Some(JNum(now))
                         && PersistedSnapshot(Some(a.payload)) == Some(JObj(Sanitize(s)))
  {
    if !ShouldPersist(s) then Clear else Store(Payload(s, now))
  }

  /** getPersistedPayload: the stored snapshot, if the stored value is an object with version 1 and a truthy snapshot. */
  function PersistedSnapshot(stored: Option<Json>): (r: Option<Json>)
    ensures r.Some? <==> && stored.Some? && stored.value.JObj?
                         && Get(stored.value.fields, "version") == Some(JNum(PERSIST_VERSION))
                         && Truthy(Get(stored.value.fields, "snapshot"))
    ensures r.Some? ==> r == Get(stored.value.fields, "snapshot")
  {
    match stored
    case Some(JObj(m)) =>
      if Get(m, "version") != Some(JNum(PERSIST_VERSION)) || !Truthy(Get(m, "snapshot")) then None
      else Some(m["snapshot"])
    case _ => None
  }

  /** What loadPersistedSnapshot decides. */
  datatype LoadOutcome =
    | Resume(snapshot: Record)   // hand this snapshot to the machine
    | Discard                    // remove the stored payload, start fresh
    | NoSavedGame                // start fresh, leave storage alone

  /**
   * loadPersistedSnapshot, on the parsed stored value (None when nothing is stored, storage is unavailable
   * or the text does not parse). Field reads on a non-object snapshot yield undefined, as on an empty object.
   */
  function LoadPersistedSnapshot(stored: Option<Json>): (o: LoadOutcome)
    ensures o.Resume? ==> LooksLikePlaying(o.snapshot) && ShouldPersist(o.snapshot)
    ensures var p := PersistedSnapshot(stored);
            && (o.Discard? <==> p.Some? && p.value.JObj? && Get(p.value.fields, "value") == Some(JStr("gameOver")))
            && (o.Resume? ==> p.Some? && p.value.JObj? && o.snapshot == Sanitize(p.value.fields))
            && ((p.Some? && p.value.JObj? && Get(p.value.fields, "value") != Some(JStr("gameOver"))
                 && LooksLikePlaying(p.value.fields)) ==> o == Resume(Sanitize(p.value.fields)))
  {
    match PersistedSnapshot(stored)
    case None => NoSavedGame
    case Some(snap) =>
      var s := if snap.JObj? then snap.fields else map[];
      if Get(s, "value") == Some(JStr("gameOver")) then Discard
      else if !LooksLikePlaying(s) then NoSavedGame
      else
        SanitizeKeepsClassification(s);
        PlayingIsPersisted(s);
        Resume(Sanitize(s))
  }

  /** A loaded snapshot is always in restored shape: sanitizing it again changes nothing. */
  lemma LoadedSnapshotIsRestorable(stored: Option<Json>)
    ensures var o := LoadPersistedSnapshot(stored);
            o.Resume? ==> Restorable(o.snapshot) && Sanitize(o.snapshot) == o.snapshot
  {
    match PersistedSnapshot(stored)
    case None =>
    case Some(snap) =>
      var s := if snap.JObj? then snap.fields else map[];
      SanitizeRestorable(s);
      SanitizeIdempotent(s);
  }

  /** Payloads written with another version are never resumed. */
  lemma LoadRejectsOtherVersions(m: Record)
    requires Get(m, "version") != Some(JNum(PERSIST_VERSION))
    ensures LoadPersistedSnapshot(Some(JObj(m))) == NoSavedGame
  {
  }

  /**
   * The persistence round trip: a snapshot of a running game is stored, and loading what was stored resumes
   * the same snapshot, sanitized, whatever the clock read when it was saved.
   */
  lemma PersistLoadRoundTrip(s: Record, now: int)
    requires LooksLikePlaying(s)
    ensures PersistSnapshot(s, now) == Store(Payload(s, now))
    ensures LoadPersistedSnapshot(Some(Payload(s, now))) == Resume(Sanitize(s))
  {
    PlayingIsPersisted(s);
    SanitizeKeepsClassification(s);
    SanitizeIdempotent(s);
    var r := Sanitize(s);
    assert Get(r, "value") != Some(JStr("gameOver")) by {
      PlayingIsPersisted(r);
    }
  }

  /**
   * A finished game clears storage when saved, and is discarded when found in storage: in the payload
   * persistSnapshot writes, or in any other version-1 object whose snapshot it is.
   */
  lemma GameOverIsNeverResumed(s: Record, now: int, extra: Record)
    requires Get(s, "value") == Some(JStr("gameOver"))
    ensures PersistSnapshot(s, now) == Clear
    ensures LoadPersistedSnapshot(Some(Payload(s, now))) == Discard
    ensures LoadPersistedSnapshot(Some(JObj(extra["version" := JNum(PERSIST_VERSION)]["snapshot" := JObj(s)]))) == Discard
  {
    PlayingIsPersisted(s);
    assert Get(Sanitize(s), "value") == Get(s, "value");
  }
}
