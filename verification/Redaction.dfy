// scrubSnapshot of backend/internal/service/support_service.go: sensitive keys
// of a decoded JSON tree are overwritten at every depth.

module Redaction {
  import opened Options

  datatype Json =
    | Null
    | Bool(b: bool)
    | Number(n: real)
    | Text(s: string)
    | Array(items: seq<Json>)
    | Object(fields: map<string, Json>)

  const REDACTED := Text("[REDACTED]")

  const TOKENS: seq<string> := [
    "password", "passwd", "token", "authorization", "secret", "credential", "private_key", "apikey", "api_key"]

  function Lower(c: char): char {
    if 'A' <= c <= 'Z' then (c as int + 32) as char else c
  }

  // "-" and " " become "_", then lower case.
  function Normalize(key: string): string {
    seq(|key|, i requires 0 <= i < |key| => Lower(if key[i] == '-' || key[i] == ' ' then '_' else key[i]))
  }

  predicate MatchAt(s: string, token: string, i: nat) {
    i + |token| <= |s| && s[i..i + |token|] == token
  }

  predicate Contains(s: string, token: string) {
    exists i :: 0 <= i <= |s| && MatchAt(s, token, i)
  }

  predicate Sensitive(key: string) {
    exists k :: 0 <= k < |TOKENS| && Contains(Normalize(key), TOKENS[k])
  }

  // The character of a key counts as the given one of a token.
  predicate Reads(c: char, token: char) {
    || (c == token && !('A' <= c <= 'Z'))
    || (token == '_' && (c == '-' || c == ' '))
    || ('a' <= token <= 'z' && 'A' <= c <= 'Z' && c as int == token as int - 32)
  }

  predicate ReadsAt(key: string, token: string, i: nat) {
    i + |token| <= |key| && forall j :: 0 <= j < |token| ==> Reads(key[i + j], token[j])
  }

  predicate IsToken(token: string) {
    token in {
      "password", "passwd", "token", "authorization", "secret", "credential", "private_key", "apikey", "api_key"}
  }

  // A key is sensitive if and only if somewhere it reads as one of the nine
  // tokens, whatever the case, with "-" and " " for "_".
  lemma SensitiveExactly(key: string)
    ensures Sensitive(key) <==> exists token, i: nat :: IsToken(token) && ReadsAt(key, token, i)
  {
    hide ReadsAt, Normalize, MatchAt, IsToken;
    if Sensitive(key) {
      var k :| 0 <= k < |TOKENS| && Contains(Normalize(key), TOKENS[k]);
      var i :| 0 <= i <= |Normalize(key)| && MatchAt(Normalize(key), TOKENS[k], i);
      TokenAt(k);
      PlainToken(TOKENS[k]);
      MatchIsReading(key, TOKENS[k], i);
    }
    if token, i: nat :| IsToken(token) && ReadsAt(key, token, i) {
      PlainToken(token);
      MatchIsReading(key, token, i);
      var k := TokenIndex(token);
      FoundAt(Normalize(key), TOKENS[k], i);
    }
  }

  lemma FoundAt(s: string, token: string, i: nat)
    requires MatchAt(s, token, i)
    ensures Contains(s, token)
  {
  }

  lemma TokenAt(k: nat)
    requires k < |TOKENS|
    ensures IsToken(TOKENS[k])
  {
  }

  lemma TokenIndex(token: string) returns (k: nat)
    requires IsToken(token)
    ensures k < |TOKENS| && TOKENS[k] == token
  {
    k := if token == "password" then 0 else if token == "passwd" then 1 else if token == "token" then 2
         else if token == "authorization" then 3 else if token == "secret" then 4 else if token == "credential" then 5
         else if token == "private_key" then 6 else if token == "apikey" then 7 else 8;
  }

  // Lower-case letters and "_" only.
  predicate Plain(token: string) {
    forall j :: 0 <= j < |token| ==> token[j] == '_' || 'a' <= token[j] <= 'z'
  }

  lemma PlainToken(token: string)
    requires IsToken(token)
    ensures Plain(token)
  {
  }

  lemma LowerIsReading(c: char, token: char)
    requires token == '_' || 'a' <= token <= 'z'
    ensures Lower(if c == '-' || c == ' ' then '_' else c) == token <==> Reads(c, token)
  {
  }

  lemma MatchIsReading(key: string, token: string, i: nat)
    requires Plain(token)
    ensures MatchAt(Normalize(key), token, i) <==> ReadsAt(key, token, i)
  {
    hide Lower, Reads;
    if i + |token| <= |key| {
      var part := Normalize(key)[i..i + |token|];
      forall j | 0 <= j < |token| ensures part[j] == token[j] <==> Reads(key[i + j], token[j]) {
        LowerIsReading(key[i + j], token[j]);
      }
      assert part == token <==> forall j :: 0 <= j < |token| ==> part[j] == token[j];
    }
  }

  function Scrub(node: Json): Json {
    match node
    case Object(fields) =>
      Object(map key | key in fields :: if Sensitive(key) then REDACTED else Scrub(fields[key]))
    case Array(items) =>
      Array(seq(|items|, i requires 0 <= i < |items| => Scrub(items[i])))
    case _ => node
  }

  function ScrubField(key: string, value: Json): Json {
    if Sensitive(key) then REDACTED else Scrub(value)
  }

  lemma ScrubByField(fields: map<string, Json>, current: map<string, Json>)
    requires current.Keys == fields.Keys
    requires forall key :: key in fields ==> current[key] == ScrubField(key, fields[key])
    ensures Object(current) == Scrub(Object(fields))
  {
    hide Sensitive;
  }

  lemma ScrubByItem(items: seq<Json>, current: seq<Json>)
    requires |current| == |items|
    requires forall k :: 0 <= k < |items| ==> current[k] == Scrub(items[k])
    ensures Array(current) == Scrub(Array(items))
  {
  }

  // The walk: each field and item in turn, a sensitive field without going down.
  method ScrubSnapshot(node: Json) returns (clean: Json)
    ensures clean == Scrub(node)
    decreases node
  {
    match node {
      case Object(fields) =>
        hide Sensitive, Scrub;
        var current, pending := fields, fields.Keys;
        while pending != {}
          invariant pending <= fields.Keys == current.Keys
          invariant forall key :: key in pending ==> current[key] == fields[key]
          invariant forall key :: key in fields && key !in pending ==> current[key] == ScrubField(key, fields[key])
          decreases |pending|
        {
          var key :| key in pending;
          if Sensitive(key) {
            current := current[key := REDACTED];
          } else {
            var child := ScrubSnapshot(fields[key]);
            current := current[key := child];
          }
          pending := pending - {key};
        }
        ScrubByField(fields, current);
        return Object(current);
      case Array(items) =>
        hide Sensitive, Scrub;
        var current := items;
        for i := 0 to |items|
          invariant |current| == |items|
          invariant forall k :: 0 <= k < |items| ==> current[k] == if k < i then Scrub(items[k]) else items[k]
        {
          var child := ScrubSnapshot(items[i]);
          current := current[i := child];
        }
        ScrubByItem(items, current);
        return Array(current);
      case _ => return node;
    }
  }

  // A way down the tree: a key of an object or a position of an array.
  datatype Step = Key(key: string) | At(index: nat)

  function Child(node: Json, step: Step): Option<Json> {
    match (node, step)
    case (Object(fields), Key(key)) => if key in fields then Some(fields[key]) else None
    case (Array(items), At(index)) => if index < |items| then Some(items[index]) else None
    case _ => None
  }

  function Reach(node: Json, path: seq<Step>): Option<Json>
    decreases path
  {
    if path == [] then Some(node)
    else
      match Child(node, path[0])
      case None => None
      case Some(child) => Reach(child, path[1..])
  }

  predicate Clean(path: seq<Step>) {
    forall i :: 0 <= i < |path| ==> path[i].At? || !Sensitive(path[i].key)
  }

  // Along a path without sensitive keys, scrubbing commutes with looking: the
  // same paths exist, and they lead to the scrubbed value.
  lemma {:induction false} CleanPathsKept(node: Json, path: seq<Step>)
    requires Clean(path)
    ensures Reach(Scrub(node), path) ==
            (match Reach(node, path) case None => None case Some(found) => Some(Scrub(found)))
    decreases path
  {
    hide Sensitive;
    if path != [] {
      match Child(node, path[0]) {
        case None =>
        case Some(child) =>
          assert Child(Scrub(node), path[0]) == Some(Scrub(child));
          CleanPathsKept(child, path[1..]);
      }
    }
  }

  // Below a sensitive key nothing but the marker is left.
  lemma SensitiveReplaced(node: Json, path: seq<Step>, key: string)
    requires Clean(path) && Sensitive(key)
    ensures Reach(Scrub(node), path + [Key(key)]) ==
            (if Reach(node, path + [Key(key)]).Some? then Some(REDACTED) else None)
  {
    hide Sensitive, Scrub;
    CleanPathsKept(node, path);
    ReachLast(node, path, Key(key));
    ReachLast(Scrub(node), path, Key(key));
    if Reach(node, path).Some? {
      ScrubSensitiveChild(Reach(node, path).value, key);
    }
  }

  lemma ScrubSensitiveChild(node: Json, key: string)
    requires Sensitive(key)
    ensures Child(Scrub(node), Key(key)) == (if Child(node, Key(key)).Some? then Some(REDACTED) else None)
  {
    hide Sensitive;
  }

  lemma {:induction false} ReachLast(node: Json, path: seq<Step>, step: Step)
    ensures Reach(node, path + [step]) ==
      (match Reach(node, path) case None => None case Some(found) => Child(found, step))
    decreases path
  {
    if path == [] {
      assert ([] + [step])[1..] == [];
    } else {
      assert (path + [step])[1..] == path[1..] + [step];
      match Child(node, path[0]) {
        case None =>
        case Some(child) => ReachLast(child, path[1..], step);
      }
    }
  }

  // No sensitive key anywhere holds anything but the marker.
  lemma {:induction false} NothingSensitiveLeft(node: Json, path: seq<Step>, key: string)
    requires Sensitive(key) && Reach(Scrub(node), path + [Key(key)]).Some?
    ensures Reach(Scrub(node), path + [Key(key)]) == Some(REDACTED)
    decreases path
  {
    hide Sensitive, Scrub;
    if Clean(path) {
      SensitiveReplaced(node, path, key);
    } else {
      BelowSensitive(node, path);
      ReachLast(Scrub(node), path, Key(key));
    }
  }

  // A path through a sensitive key ends there: the marker has no children.
  lemma {:induction false} BelowSensitive(node: Json, path: seq<Step>)
    requires !Clean(path)
    ensures Reach(Scrub(node), path).None? || Reach(Scrub(node), path) == Some(REDACTED)
    decreases path
  {
    hide Sensitive;
    if path[0].Key? && Sensitive(path[0].key) {
      ScrubSensitiveChild(node, path[0].key);
      if |path| > 1 {
        assert Child(REDACTED, path[1..][0]).None?;
      }
    } else {
      var rest := path[1..];
      assert !Clean(rest) by {
        var i :| 0 <= i < |path| && !(path[i].At? || !Sensitive(path[i].key));
        assert rest[i - 1] == path[i];
      }
      match Child(node, path[0]) {
        case None =>
        case Some(child) =>
          assert Child(Scrub(node), path[0]) == Some(Scrub(child));
          BelowSensitive(child, rest);
      }
    }
  }

  lemma {:induction false} ScrubIdempotent(node: Json)
    ensures Scrub(Scrub(node)) == Scrub(node)
  {
    hide Sensitive;
    match node {
      case Object(fields) =>
        forall key | key in fields && !Sensitive(key) ensures Scrub(Scrub(fields[key])) == Scrub(fields[key]) {
          ScrubIdempotent(fields[key]);
        }
      case Array(items) =>
        forall i | 0 <= i < |items| ensures Scrub(Scrub(items[i])) == Scrub(items[i]) {
          ScrubIdempotent(items[i]);
        }
      case _ =>
    }
  }
}
