/** Decoded JSON documents, as the HTTP client's `json()` and the cache
    reader produce them, together with the one question the scraper asks of
    a response body: Python's `'error' in body`. */
module JsonValue {

  /** A decoded JSON value. Numbers are abstracted to integers: nothing in the
      modelled logic inspects them. */
  datatype Json =
    | JNull
    | JBool(b: bool)
    | JNumber(n: int)
    | JString(s: string)
    | JArray(items: seq<Json>)
    | JObject(fields: map<string, Json>)

  /** The `{}` the player fetch returns when its request fails. */
  const EmptyObject: Json := JObject(map[])

  /** The key the upstream API uses to report a business error inside a
      successful (status 200) response. */
  const ErrorKey: string := "error"

  predicate IsPrefix(sub: string, s: string) {
    |sub| <= |s| && s[..|sub|] == sub
  }

  /** `sub` occurs in `s` starting at offset `k`. */
  predicate OccursAt(s: string, sub: string, k: int) {
    0 <= k && k + |sub| <= |s| && s[k..k + |sub|] == sub
  }

  /** Python's `sub in s` on two strings: a search from the front. It holds
      exactly when `sub` occurs at some offset. */
  predicate HasSubstring(s: string, sub: string): (found: bool)
    decreases |s|
    ensures found <==> exists k :: OccursAt(s, sub, k)
  {
    if IsPrefix(sub, s) then
      assert OccursAt(s, sub, 0);
      true
    else if |s| == 0 then
      false
    else
      var r := HasSubstring(s[1..], sub);
      assert r ==> exists k :: OccursAt(s, sub, k) by {
        if r {
          var k :| OccursAt(s[1..], sub, k);
          assert s[1..][k..k + |sub|] == s[k + 1..k + 1 + |sub|];
          assert OccursAt(s, sub, k + 1);
        }
      }
      assert (exists k :: OccursAt(s, sub, k)) ==> r by {
        if k :| OccursAt(s, sub, k) {
          assert k != 0;
          assert s[1..][k - 1..k - 1 + |sub|] == s[k..k + |sub|];
          assert OccursAt(s[1..], sub, k - 1);
        }
      }
      r
  }

  /** The three ways Python's `'error' in body` can end. */
  datatype Membership =
    | Member          // the test is true
    | NotMember       // the test is false
    | NotSearchable   // the test raises TypeError (numbers, booleans, null)

  /** Python's `'error' in body` for each JSON shape: a key test on objects,
      an element test on arrays, a substring test on strings, and a
      TypeError on every other value. */
  function ErrorMembership(body: Json): (m: Membership)
    ensures m == NotSearchable <==> !(body.JObject? || body.JArray? || body.JString?)
    ensures body.JObject? ==> (m == Member <==> ErrorKey in body.fields)
    ensures body.JArray? ==> (m == Member <==> exists i :: 0 <= i < |body.items| && body.items[i] == JString(ErrorKey))
    ensures body.JString? ==> (m == Member <==> exists pre, post :: body.s == pre + ErrorKey + post)
  {
    match body
    case JObject(fields) => if ErrorKey in fields then Member else NotMember
    case JArray(items) => if JString(ErrorKey) in items then Member else NotMember
    case JString(s) =>
      if HasSubstring(s, ErrorKey) then
        SubstringSound(s);
        Member
      else
        assert forall pre, post :: s != pre + ErrorKey + post by {
          forall pre, post ensures s != pre + ErrorKey + post {
            SubstringAnywhere(pre, post);
          }
        }
        NotMember
    case _ => NotSearchable
  }

  /** A string that contains "error" anywhere is searched positively. */
  lemma {:induction false} SubstringAnywhere(pre: string, post: string)
    ensures HasSubstring(pre + ErrorKey + post, ErrorKey)
  {
    if |pre| == 0 {
      assert pre + ErrorKey + post == ErrorKey + post;
      assert (ErrorKey + post)[..|ErrorKey|] == ErrorKey;
    } else {
      assert (pre + ErrorKey + post)[1..] == pre[1..] + ErrorKey + post;
      SubstringAnywhere(pre[1..], post);
    }
  }

  /** Conversely, a string the search flags contains "error": a string
      without it is not flagged. */
  lemma SubstringSound(s: string)
    requires HasSubstring(s, ErrorKey)
    ensures exists pre, post :: s == pre + ErrorKey + post
  {
    var k :| OccursAt(s, ErrorKey, k);
    assert s == s[..k] + ErrorKey + s[k + |ErrorKey|..];
  }
}
