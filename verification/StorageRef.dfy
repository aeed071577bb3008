/** Object refs: storage-ref.util.ts and the ref handling of storage.service.ts. */
module StorageRef {
  import opened Prelude

  datatype Ref = Ref(bucket: string, key: string)

  /** True when `c` occurs twice in a row: the tests for ".." and "//". */
  predicate HasDouble(s: string, c: char): (found: bool)
    ensures found ==> c in s
  {
    exists i :: 0 <= i < |s| - 1 && s[i] == c && s[i + 1] == c
  }

  predicate IsControl(c: char) {
    c as int <= 0x1f || c as int == 0x7f
  }

  predicate IsSafeKeySegment(value: string) {
    && value != ""
    && !HasDouble(value, '.')
    && value[0] != '/'
    && '\\' !in value
    && !HasDouble(value, '/')
    && (forall c :: c in value ==> !IsControl(c))
  }

  predicate IsLabelChar(c: char) {
    'a' <= c <= 'z' || '0' <= c <= '9'
  }

  /** The bucket pattern: a lower-case letter or digit, then letters, digits, dots and dashes. */
  predicate IsBucketLabel(s: string) {
    s != "" && IsLabelChar(s[0]) && forall c :: c in s ==> IsLabelChar(c) || c == '.' || c == '-'
  }

  /** String.indexOf for one character. */
  function IndexOf(s: string, c: char): (at: int)
    ensures -1 <= at < |s|
    ensures at == -1 <==> c !in s
    ensures at >= 0 ==> s[at] == c && c !in s[..at]
  {
    if s == "" then -1
    else if s[0] == c then 0
    else
      var rest := IndexOf(s[1..], c);
      assert s == [s[0]] + s[1..];
      assert rest >= 0 ==> s[..rest + 1] == [s[0]] + s[1..][..rest];
      if rest < 0 then -1 else rest + 1
  }

  function ParseRef(ref: Option<string>): Option<Ref> {
    if ref.None? || ref.value == "" then None
    else if !IsSafeKeySegment(ref.value) then None
    else
      var slash := IndexOf(ref.value, '/');
      if slash < 1 then None
      else
        var bucket := ref.value[..slash];
        var key := ref.value[slash + 1..];
        if bucket == "" || key == "" then None
        else if !IsBucketLabel(bucket) then None
        else Some(Ref(bucket, key))
  }

  function Print(ref: Ref): string {
    ref.bucket + "/" + ref.key
  }

  function PublicUrl(base: string, bucket: string, key: string): string {
    base + "/" + bucket + "/" + key
  }

  function ExtractKey(base: string, url: Option<string>): Option<string> {
    if url.None? || url.value == "" then None
    else if base + "/" <= url.value then Some(url.value[|base| + 1..])
    else None
  }

  /** A ref that parses prints back to itself. */
  lemma ParsedPrintsBack(ref: string)
    requires ParseRef(Some(ref)).Some?
    ensures Print(ParseRef(Some(ref)).value) == ref
  {
  }

  /** A repeated character in a joined ref sits in one part, or straddles the slash. */
  lemma DoubleInJoin(a: string, b: string, c: char)
    requires HasDouble(a + "/" + b, c)
    ensures HasDouble(a, c) || HasDouble(b, c) || (c == '/' && (c in a || (b != "" && b[0] == c)))
  {
    var whole := a + "/" + b;
    var i :| 0 <= i < |whole| - 1 && whole[i] == c && whole[i + 1] == c;
    if i + 1 < |a| {
      assert a[i] == c && a[i + 1] == c;
    } else if i > |a| {
      assert b[i - |a| - 1] == c && b[i - |a|] == c;
    } else if i < |a| {
      assert a[i] in a;
    }
  }

  lemma DoubleInPart(a: string, b: string, c: char, part: string)
    requires part == a || part == b
    requires HasDouble(part, c)
    ensures HasDouble(a + "/" + b, c)
  {
    var i :| 0 <= i < |part| - 1 && part[i] == c && part[i + 1] == c;
    var whole := a + "/" + b;
    var j := if part == a then i else |a| + 1 + i;
    assert whole[j] == c && whole[j + 1] == c;
  }

  /** What a bucket label and a safe key, joined by a slash, still avoid. */
  lemma JoinedIsSafe(bucket: string, key: string)
    requires IsBucketLabel(bucket) && !HasDouble(bucket, '.') && IsSafeKeySegment(key)
    ensures IsSafeKeySegment(bucket + "/" + key)
  {
    var whole := bucket + "/" + key;
    if HasDouble(whole, '.') {
      DoubleInJoin(bucket, key, '.');
    }
    if HasDouble(whole, '/') {
      DoubleInJoin(bucket, key, '/');
    }
    assert forall c :: c in bucket ==> c != '\\' && c != '/' && !IsControl(c);
    forall c | c in whole
      ensures c in bucket || c == '/' || c in key
    {
      var i :| 0 <= i < |whole| && whole[i] == c;
    }
    assert whole[0] == bucket[0] && bucket[0] in bucket;
  }

  /** A printed ref parses back to itself exactly when its bucket is a flat label without ".." and its key is safe. */
  lemma PrintedParsesBack(bucket: string, key: string)
    ensures ParseRef(Some(Print(Ref(bucket, key)))) == Some(Ref(bucket, key)) <==>
      IsBucketLabel(bucket) && !HasDouble(bucket, '.') && IsSafeKeySegment(key)
  {
    if IsBucketLabel(bucket) && !HasDouble(bucket, '.') && IsSafeKeySegment(key) {
      JoinedIsSafe(bucket, key);
      SlashEndsBucket(bucket, key);
    } else if ParseRef(Some(Print(Ref(bucket, key)))) == Some(Ref(bucket, key)) {
      PartsOfSafeAreSafe(bucket, key);
    }
  }

  /**
   * The round trip through a public URL gives bucket and key back exactly when the bucket is a flat
   * label without "..", and the key is one `upload` would have agreed to write.
   */
  lemma PublicUrlRoundTrip(base: string, bucket: string, key: string)
    ensures ParseRef(ExtractKey(base, Some(PublicUrl(base, bucket, key)))) == Some(Ref(bucket, key))
       <==> IsBucketLabel(bucket) && !HasDouble(bucket, '.') && IsSafeKeySegment(key)
  {
    var ref := Print(Ref(bucket, key));
    var url := PublicUrl(base, bucket, key);
    assert url == base + "/" + ref;
    assert url[..|base| + 1] == base + "/" && url[|base| + 1..] == ref;
    assert ExtractKey(base, Some(url)) == Some(ref);
    hide *;
    PrintedParsesBack(bucket, key);
  }

  lemma {:induction false} FirstSlash(s: string, at: nat)
    requires at < |s| && s[at] == '/' && forall i :: 0 <= i < at ==> s[i] != '/'
    ensures IndexOf(s, '/') == at
  {
    if at > 0 {
      FirstSlash(s[1..], at - 1);
    }
  }

  lemma SlashEndsBucket(bucket: string, key: string)
    requires IsBucketLabel(bucket)
    ensures var ref := bucket + "/" + key;
      IndexOf(ref, '/') == |bucket| && ref[..|bucket|] == bucket && ref[|bucket| + 1..] == key
  {
    var ref := bucket + "/" + key;
    assert forall i :: 0 <= i < |bucket| ==> ref[i] == bucket[i] && bucket[i] in bucket;
    FirstSlash(ref, |bucket|);
  }

  lemma PartsOfSafeAreSafe(bucket: string, key: string)
    requires ParseRef(Some(bucket + "/" + key)) == Some(Ref(bucket, key))
    ensures IsBucketLabel(bucket) && !HasDouble(bucket, '.') && IsSafeKeySegment(key)
  {
    var ref := bucket + "/" + key;
    forall part, c | (part == bucket || part == key) && HasDouble(part, c)
      ensures HasDouble(ref, c)
    {
      DoubleInPart(bucket, key, c, part);
    }
    assert ref[|bucket|] == '/' && ref[|bucket| + 1] == key[0];
    forall c | c in key
      ensures c in ref
    {
      var i :| 0 <= i < |key| && key[i] == c;
      assert ref[|bucket| + 1 + i] == c;
    }
  }

  function ParseAll(refs: seq<Option<string>>): (parsed: seq<Option<Ref>>)
    ensures |parsed| == |refs| && forall i :: 0 <= i < |refs| ==> parsed[i] == ParseRef(refs[i])
  {
    seq(|refs|, i requires 0 <= i < |refs| => ParseRef(refs[i]))
  }

  function Named(parsed: Option<Ref>, bucket: string): seq<string> {
    if parsed.Some? && parsed.value.bucket == bucket then [parsed.value.key] else []
  }

  /** The keys that the usable refs name in `bucket`, in the order given. */
  function KeysFor(parsed: seq<Option<Ref>>, bucket: string): seq<string> {
    if parsed == [] then []
    else
      KeysFor(parsed[..|parsed| - 1], bucket) + Named(parsed[|parsed| - 1], bucket)
  }

  /** The map holds, for each bucket, the keys the usable refs name in it, and no empty list. */
  ghost predicate Grouped(byBucket: map<string, seq<string>>, parsed: seq<Option<Ref>>) {
    forall bucket ::
      if bucket in byBucket then byBucket[bucket] == KeysFor(parsed, bucket) != [] else KeysFor(parsed, bucket) == []
  }

  function Filed(byBucket: map<string, seq<string>>, ref: Ref): map<string, seq<string>> {
    byBucket[ref.bucket := (if ref.bucket in byBucket then byBucket[ref.bucket] else []) + [ref.key]]
  }

  lemma FiledOne(byBucket: map<string, seq<string>>, parsed: seq<Option<Ref>>, next: Option<Ref>)
    requires Grouped(byBucket, parsed)
    ensures Grouped(if next.Some? then Filed(byBucket, next.value) else byBucket, parsed + [next])
  {
    assert (parsed + [next])[..|parsed|] == parsed;
  }

  /** The grouping loop of `remove`; one delete request is then sent per entry of the map. */
  method GroupForRemoval(refs: seq<Option<string>>) returns (byBucket: map<string, seq<string>>)
    ensures Grouped(byBucket, ParseAll(refs))
  {
    byBucket := map[];
    ghost var all := ParseAll(refs);
    assert Grouped(map[], all[..0]);
    hide Grouped, KeysFor, ParseRef;
    for i := 0 to |refs|
      invariant Grouped(byBucket, all[..i])
    {
      assert all[..i + 1] == all[..i] + [all[i]];
      FiledOne(byBucket, all[..i], all[i]);
      var parsed := ParseRef(refs[i]);
      if parsed.None? {
        continue;
      }
      var bucket := parsed.value.bucket;
      var keys := if bucket in byBucket then byBucket[bucket] else [];
      byBucket := byBucket[bucket := keys + [parsed.value.key]];
    }
    assert all[..|refs|] == all;
  }

  lemma {:induction false} KeysAreTheParsed(parsed: seq<Option<Ref>>, bucket: string, key: string)
    ensures key in KeysFor(parsed, bucket) <==> Some(Ref(bucket, key)) in parsed
  {
    if parsed != [] {
      var n := |parsed| - 1;
      KeysAreTheParsed(parsed[..n], bucket, key);
      assert parsed == parsed[..n] + [parsed[n]];
    }
  }

  /** A key is deleted from a bucket exactly when a ref that was given, and that parses, spells that bucket and key. */
  lemma DeletesExactlyTheUsableRefs(refs: seq<Option<string>>, bucket: string, key: string)
    ensures key in KeysFor(ParseAll(refs), bucket)
       <==> Some(Print(Ref(bucket, key))) in refs && ParseRef(Some(Print(Ref(bucket, key)))) == Some(Ref(bucket, key))
  {
    var all, ref := ParseAll(refs), Some(Print(Ref(bucket, key)));
    KeysAreTheParsed(all, bucket, key);
    if Some(Ref(bucket, key)) in all {
      var i :| 0 <= i < |all| && all[i] == Some(Ref(bucket, key));
      ParsedPrintsBack(refs[i].value);
      assert refs[i] == ref;
    }
    if ref in refs && ParseRef(ref) == Some(Ref(bucket, key)) {
      var i :| 0 <= i < |refs| && refs[i] == ref;
      assert all[i] == Some(Ref(bucket, key));
    }
  }

  lemma KeysForLast(parsed: seq<Option<Ref>>, next: Option<Ref>, bucket: string)
    ensures KeysFor(parsed + [next], bucket) == KeysFor(parsed, bucket) + Named(next, bucket)
  {
    assert (parsed + [next])[..|parsed|] == parsed;
  }

  /** Order and repeats survive the grouping: each batch contributes its own keys, one batch after the other. */
  lemma {:induction false} BatchesConcatenate(first: seq<Option<Ref>>, second: seq<Option<Ref>>, bucket: string)
    ensures KeysFor(first + second, bucket) == KeysFor(first, bucket) + KeysFor(second, bucket)
  {
    if second == [] {
      assert first + second == first;
    } else {
      hide KeysFor, Named;
      var init, last := second[..|second| - 1], second[|second| - 1];
      assert first + second == first + init + [last] && second == init + [last];
      BatchesConcatenate(first, init, bucket);
      KeysForLast(first + init, last, bucket);
      KeysForLast(init, last, bucket);
    }
  }

  // ─── In characters ───────────────────────────────────────────────────────

  /** Never the same character twice in a row. */
  predicate NoTwo(s: string, c: char) {
    forall i :: 0 <= i < |s| - 1 ==> s[i] != c || s[i + 1] != c
  }

  /** A bucket and a key make a ref that leads back to them exactly when they are spelled like this. */
  lemma RefsAreSpelled(bucket: string, key: string)
    ensures ParseRef(Some(bucket + "/" + key)) == Some(Ref(bucket, key)) <==>
      && bucket != "" && ('a' <= bucket[0] <= 'z' || '0' <= bucket[0] <= '9') && NoTwo(bucket, '.')
      && (forall c :: c in bucket ==> 'a' <= c <= 'z' || '0' <= c <= '9' || c == '.' || c == '-')
      && key != "" && key[0] != '/' && NoTwo(key, '/') && NoTwo(key, '.')
      && (forall c :: c in key ==> c != '\\' && c as int > 31 && c as int != 127)
  {
    PrintedParsesBack(bucket, key);
    assert Print(Ref(bucket, key)) == bucket + "/" + key;
    hide ParseRef, Print;
  }

  /** The key is whatever follows the base and a slash, and a URL that starts with neither has none. */
  lemma KeyIsExtracted(base: string, url: string, rest: string)
    ensures ExtractKey(base, Some(base + "/" + rest)) == Some(rest) && ExtractKey(base, None) == None
    ensures ExtractKey(base, Some(url)).None? <==> |url| <= |base| || url[..|base|] != base || url[|base|] != '/'
  {
    assert (base + "/" + rest)[|base| + 1..] == rest;
    if |url| > |base| && url[..|base|] == base && url[|base|] == '/' {
      assert base + "/" == url[..|base| + 1];
    }
  }
}
