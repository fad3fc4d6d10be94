/** The intent store: one YAML document per task, named intent_<task id>.yaml, in the
    intents directory; and the queries that list, filter and search them. */
module IntentStore {
  import opened Common
  import opened Json

  // ---------------------------------------------------------------------------
  // File names

  /** f"intent_{task_id}.yaml". */
  function FileName(taskId: string): string {
    "intent_" + taskId + ".yaml"
  }

  /** Different task ids never share an intent file. */
  lemma FileNameInjective(a: string, b: string)
    ensures FileName(a) == FileName(b) ==> a == b
  {
    if FileName(a) == FileName(b) {
      assert |a| == |b|;
      assert a == FileName(a)[7..7 + |a|];
    }
  }

  /** The glob "intent_*.yaml". */
  predicate GlobMatch(name: string) {
    |name| >= 12 && StartsWith(name, "intent_") && name[|name| - 5..] == ".yaml"
  }

  /** Every intent file is listed by the glob. */
  lemma FileNameMatches(taskId: string)
    ensures GlobMatch(FileName(taskId))
  {
    var n := FileName(taskId);
    assert n[..7] == "intent_";
    assert n[|n| - 5..] == ".yaml";
  }

  /** f"{task_id}" for intent_data.get("task_id", "unknown"); `pyStr` is Python's str() on the
      values that are not strings. */
  function TaskIdText(data: Dict, pyStr: Value -> string): string {
    if "task_id" !in data then "unknown"
    else if data["task_id"].JStr? then data["task_id"].s
    else pyStr(data["task_id"])
  }

  /** save_intent stamps updated_at on the dict before writing it. */
  function Stamped(data: Dict, now: string): (d: Dict)
    ensures d.Keys == data.Keys + {"updated_at"} && d["updated_at"] == JStr(now)
    ensures forall k | k in data && k != "updated_at" :: d[k] == data[k]
  {
    data["updated_at" := JStr(now)]
  }

  // ---------------------------------------------------------------------------
  // Commits recorded in an intent document

  /** The commit entries of an intent dict, as add_commit_to_intent reads them: a missing list is
      empty; anything but a list of dicts makes the hash scan or the append raise. */
  function CommitList(doc: Dict): (r: Result<seq<Value>>)
    ensures r.Ok? ==> forall i | 0 <= i < |r.value| :: r.value[i].JObj?
    ensures "commits" !in doc ==> r == Ok([])
  {
    if "commits" !in doc then Ok([])
    else if !doc["commits"].JArr? then Err(TypeError("commits of an intent is not a list"))
    else if exists i | 0 <= i < |doc["commits"].items| :: !doc["commits"].items[i].JObj? then
      Err(AttributeError("a commit of an intent has no attribute 'get'"))
    else Ok(doc["commits"].items)
  }

  /** c.get("hash") == commit_hash for some commit c. */
  predicate HasHash(commits: seq<Value>, hash: string) {
    exists i | 0 <= i < |commits| :: commits[i].JObj? && HashOf(commits[i]) == Some(hash)
  }

  function HashOf(c: Value): Option<string> {
    if c.JObj? && "hash" in c.fields && c.fields["hash"].JStr? then Some(c.fields["hash"].s) else None
  }

  /** No hash is recorded twice. */
  predicate DistinctHashes(commits: seq<Value>) {
    forall i, j | 0 <= i < j < |commits| && HashOf(commits[i]).Some? :: HashOf(commits[i]) != HashOf(commits[j])
  }

  function CommitEntry(hash: string, message: string, now: string): Value {
    JObj(map["hash" := JStr(hash), "message" := JStr(message), "timestamp" := JStr(now)])
  }

  /** The intent dict after a new commit is appended and updated_at is stamped. */
  function WithCommit(doc: Dict, commits: seq<Value>, hash: string, message: string, now: string): Dict {
    doc["commits" := JArr(commits + [CommitEntry(hash, message, now)])]["updated_at" := JStr(now)]
  }

  /** Appending a commit grows the list by exactly that commit at its end, records its hash,
      keeps the hashes distinct when it was new, and touches no other field but updated_at. */
  lemma WithCommitSpec(doc: Dict, commits: seq<Value>, hash: string, message: string, now: string)
    requires CommitList(doc) == Ok(commits) && !HasHash(commits, hash)
    ensures var d := WithCommit(doc, commits, hash, message, now);
      && CommitList(d) == Ok(commits + [CommitEntry(hash, message, now)])
      && HasHash(CommitList(d).value, hash)
      && (DistinctHashes(commits) ==> DistinctHashes(CommitList(d).value))
      && d.Keys == doc.Keys + {"commits", "updated_at"}
      && (forall k | k in doc && k != "commits" && k != "updated_at" :: d[k] == doc[k])
  {
    var d := WithCommit(doc, commits, hash, message, now);
    var cs := commits + [CommitEntry(hash, message, now)];
    assert d["commits"] == JArr(cs);
    assert HashOf(cs[|commits|]) == Some(hash);
    forall i, j | 0 <= i < j < |cs| && HashOf(cs[i]).Some? && DistinctHashes(commits)
      ensures HashOf(cs[i]) != HashOf(cs[j])
    {
      if j == |commits| {
        assert cs[i] == commits[i];
      } else {
        assert cs[i] == commits[i] && cs[j] == commits[j];
      }
    }
  }

  // ---------------------------------------------------------------------------
  // Ordering of get_all_intents

  /** Python's `<` on str: lexicographic by code point. */
  predicate StrLess(a: string, b: string)
    decreases |a|
  {
    b != [] && (a == [] || a[0] < b[0] || (a[0] == b[0] && StrLess(a[1..], b[1..])))
  }

  lemma {:induction false} StrLessIrreflexive(a: string)
    ensures !StrLess(a, a)
    decreases |a|
  {
    if a != [] {
      StrLessIrreflexive(a[1..]);
    }
  }

  lemma {:induction false} StrLessTotal(a: string, b: string)
    ensures a == b || StrLess(a, b) || StrLess(b, a)
    decreases |a|
  {
    if a != [] && b != [] && a[0] == b[0] {
      StrLessTotal(a[1..], b[1..]);
      if a[1..] == b[1..] {
        assert a == [a[0]] + a[1..] && b == [b[0]] + b[1..];
      }
    }
  }

  lemma {:induction false} StrLessTransitive(a: string, b: string, c: string)
    requires StrLess(a, b) && StrLess(b, c)
    ensures StrLess(a, c)
    decreases |a|
  {
    if a != [] && a[0] == b[0] && b[0] == c[0] {
      StrLessTransitive(a[1..], b[1..], c[1..]);
    }
  }

  /** "Not smaller" is transitive too: the keys are totally ordered. */
  lemma NotLessTransitive(a: string, b: string, c: string)
    requires !StrLess(a, b) && !StrLess(b, c)
    ensures !StrLess(a, c)
  {
    if StrLess(a, c) {
      StrLessTotal(b, c);
      if StrLess(c, b) {
        StrLessTransitive(a, c, b);
      }
    }
  }

  lemma NotLessOfLess(a: string, b: string)
    requires StrLess(a, b)
    ensures !StrLess(b, a)
  {
    if StrLess(b, a) {
      StrLessTransitive(a, b, a);
      StrLessIrreflexive(a);
    }
  }

  /** The sort key x.get("created_at", ""), for a dict whose created_at is a string. */
  function KeyOf(x: Value): string {
    if x.JObj? && "created_at" in x.fields && x.fields["created_at"].JStr? then x.fields["created_at"].s else ""
  }

  /** Newest first: no intent is followed by one with a larger key. */
  predicate SortedDesc(xs: seq<Value>) {
    forall i, j | 0 <= i < j < |xs| :: !StrLess(KeyOf(xs[i]), KeyOf(xs[j]))
  }

  /** Place x before the first element whose key is not larger, so equal keys keep their order. */
  function Insert(x: Value, ys: seq<Value>): (r: seq<Value>)
    ensures multiset(r) == multiset(ys) + multiset{x}
  {
    if ys == [] then [x]
    else if StrLess(KeyOf(x), KeyOf(ys[0])) then
      assert ys == [ys[0]] + ys[1..];
      [ys[0]] + Insert(x, ys[1..])
    else [x] + ys
  }

  /** sort(key=created_at, reverse=True): a stable sort, largest key first. */
  function SortDesc(xs: seq<Value>): (r: seq<Value>)
    ensures multiset(r) == multiset(xs)
  {
    if xs == [] then []
    else
      assert xs == [xs[0]] + xs[1..];
      Insert(xs[0], SortDesc(xs[1..]))
  }

  lemma {:induction false} InsertSorted(x: Value, ys: seq<Value>)
    requires SortedDesc(ys)
    ensures SortedDesc(Insert(x, ys))
    decreases |ys|
  {
    if ys != [] {
      if StrLess(KeyOf(x), KeyOf(ys[0])) {
        InsertSorted(x, ys[1..]);
        InsertBehind(x, ys);
      } else {
        InsertInFront(x, ys);
      }
    }
  }

  /** A head larger than x bounds everything inserting x into the tail gives. */
  lemma HeadBoundsInsert(x: Value, ys: seq<Value>)
    requires ys != [] && StrLess(KeyOf(x), KeyOf(ys[0])) && SortedDesc(ys)
    ensures forall e | e in Insert(x, ys[1..]) :: !StrLess(KeyOf(ys[0]), KeyOf(e))
  {
    var rest := Insert(x, ys[1..]);
    NotLessOfLess(KeyOf(x), KeyOf(ys[0]));
    forall e | e in rest ensures !StrLess(KeyOf(ys[0]), KeyOf(e)) {
      assert e in multiset(rest);
      if e != x {
        assert e in multiset(ys[1..]);
        var k :| 0 <= k < |ys[1..]| && ys[1..][k] == e;
        assert ys[k + 1] == e;
      }
    }
  }

  /** x goes behind the head, which is larger than x and than everything after it. */
  lemma InsertBehind(x: Value, ys: seq<Value>)
    requires ys != [] && StrLess(KeyOf(x), KeyOf(ys[0]))
    requires SortedDesc(ys) && SortedDesc(Insert(x, ys[1..]))
    ensures SortedDesc(Insert(x, ys))
  {
    var r, rest := Insert(x, ys), Insert(x, ys[1..]);
    assert r == [ys[0]] + rest;
    HeadBoundsInsert(x, ys);
    forall i, j | 0 <= i < j < |r| ensures !StrLess(KeyOf(r[i]), KeyOf(r[j])) {
      assert r[j] == rest[j - 1] && r[j] in rest;
      if i > 0 {
        assert r[i] == rest[i - 1];
      }
    }
  }

  /** x goes in front: it is not smaller than the head, hence than anything. */
  lemma InsertInFront(x: Value, ys: seq<Value>)
    requires ys != [] && !StrLess(KeyOf(x), KeyOf(ys[0]))
    requires SortedDesc(ys)
    ensures SortedDesc(Insert(x, ys))
  {
    var r := Insert(x, ys);
    assert r == [x] + ys;
    forall i, j | 0 <= i < j < |r| ensures !StrLess(KeyOf(r[i]), KeyOf(r[j])) {
      if i == 0 {
        assert r[j] == ys[j - 1];
        if j > 1 {
          NotLessTransitive(KeyOf(x), KeyOf(ys[0]), KeyOf(ys[j - 1]));
        }
      } else {
        assert r[i] == ys[i - 1] && r[j] == ys[j - 1];
      }
    }
  }

  lemma {:induction false} SortDescSorted(xs: seq<Value>)
    ensures SortedDesc(SortDesc(xs))
    decreases |xs|
  {
    if xs != [] {
      SortDescSorted(xs[1..]);
      InsertSorted(xs[0], SortDesc(xs[1..]));
    }
  }

  // ---------------------------------------------------------------------------
  // Listing, filtering and searching

  /** The truthy documents of the files the glob lists, in listing order (an unreadable file is
      skipped by the source and absent from `files` here). */
  function Collected(files: map<string, Value>, listing: seq<string>): (xs: seq<Value>)
    ensures forall x | x in xs :: Truthy(x)
  {
    if listing == [] then []
    else
      var name := listing[0];
      var rest := Collected(files, listing[1..]);
      if GlobMatch(name) && name in files && Truthy(files[name]) then [files[name]] + rest else rest
  }

  lemma {:induction false} CollectedMembers(files: map<string, Value>, listing: seq<string>, x: Value)
    ensures x in Collected(files, listing) <==>
      exists i | 0 <= i < |listing| :: GlobMatch(listing[i]) && listing[i] in files && files[listing[i]] == x && Truthy(x)
    decreases |listing|
  {
    if listing != [] {
      CollectedMembers(files, listing[1..], x);
      if exists i | 0 <= i < |listing[1..]| :: GlobMatch(listing[1..][i]) && listing[1..][i] in files && files[listing[1..][i]] == x && Truthy(x) {
        var i :| 0 <= i < |listing[1..]| && GlobMatch(listing[1..][i]) && listing[1..][i] in files && files[listing[1..][i]] == x && Truthy(x);
        assert listing[i + 1] == listing[1..][i];
      }
      if exists i | 0 <= i < |listing| :: GlobMatch(listing[i]) && listing[i] in files && files[listing[i]] == x && Truthy(x) {
        var i :| 0 <= i < |listing| && GlobMatch(listing[i]) && listing[i] in files && files[listing[i]] == x && Truthy(x);
        if i > 0 {
          assert listing[1..][i - 1] == listing[i];
        }
      }
    }
  }

  /** The first listed intent that is not a dict, whose .get raises in the sort key. */
  function FirstNonDict(xs: seq<Value>): (r: Option<Value>)
    ensures r.None? <==> forall i | 0 <= i < |xs| :: xs[i].JObj?
    ensures r.Some? ==> r.value in xs && !r.value.JObj?
  {
    if xs == [] then None
    else if !xs[0].JObj? then Some(xs[0])
    else
      var r := FirstNonDict(xs[1..]);
      assert forall i | 1 <= i < |xs| :: xs[i] == xs[1..][i - 1];
      r
  }

  /** Some created_at is present and not a string. */
  predicate OddKey(xs: seq<Value>) {
    exists i | 0 <= i < |xs| :: xs[i].JObj? && "created_at" in xs[i].fields && !xs[i].fields["created_at"].JStr?
  }

  /** get_all_intents over the documents in `files`, with `listing` the order in which the glob
      yields the file names. */
  function AllIntents(files: map<string, Value>, listing: seq<string>): Result<seq<Value>> {
    var xs := Collected(files, listing);
    var bad := FirstNonDict(xs);
    if bad.Some? then Err(AttributeError("'" + TypeName(bad.value) + "' object has no attribute 'get'"))
    else if |xs| >= 2 && OddKey(xs) then Err(TypeError("'<' not supported between the created_at values"))
    else Ok(SortDesc(xs))
  }

  /** get_all_intents lists exactly the truthy documents of the intent files, each as often as it
      is listed, newest first; it fails when one of them is not a dict. */
  lemma AllIntentsSpec(files: map<string, Value>, listing: seq<string>)
    ensures var xs := Collected(files, listing);
      && (AllIntents(files, listing).Err? <==> (exists i | 0 <= i < |xs| :: !xs[i].JObj?) || (|xs| >= 2 && OddKey(xs)))
      && (AllIntents(files, listing).Ok? ==>
            var r := AllIntents(files, listing).value;
            && SortedDesc(r)
            && multiset(r) == multiset(xs)
            && (forall x | x in r :: x.JObj? && Truthy(x))
            && (forall x :: x in r <==> exists i | 0 <= i < |listing| ::
                  GlobMatch(listing[i]) && listing[i] in files && files[listing[i]] == x && Truthy(x)))
  {
    var xs := Collected(files, listing);
    if AllIntents(files, listing).Ok? {
      var r := SortDesc(xs);
      SortDescSorted(xs);
      forall x ensures x in r <==> x in xs {
        assert x in r <==> x in multiset(r);
        assert x in xs <==> x in multiset(xs);
      }
      forall x ensures x in r <==> exists i | 0 <= i < |listing| ::
                  GlobMatch(listing[i]) && listing[i] in files && files[listing[i]] == x && Truthy(x) {
        CollectedMembers(files, listing, x);
      }
      forall x | x in r ensures x.JObj? {
        var i :| 0 <= i < |xs| && xs[i] == x;
      }
    }
  }

  /** When the listing names exactly the directory's files, get_all_intents lists exactly the
      truthy documents of its intent files. */
  lemma AllIntentsOfDirectory(files: map<string, Value>, listing: seq<string>)
    requires forall k :: k in files <==> k in listing
    ensures AllIntents(files, listing).Ok? ==>
      forall x :: x in AllIntents(files, listing).value <==>
        exists k | k in files :: GlobMatch(k) && files[k] == x && Truthy(x)
  {
    AllIntentsSpec(files, listing);
    forall x ensures (exists i | 0 <= i < |listing| :: GlobMatch(listing[i]) && listing[i] in files && files[listing[i]] == x && Truthy(x))
                     <==> (exists k | k in files :: GlobMatch(k) && files[k] == x && Truthy(x)) {
      if k :| k in files && GlobMatch(k) && files[k] == x && Truthy(x) {
        var i :| 0 <= i < |listing| && listing[i] == k;
      }
    }
  }

  /** intent.get("related_adr") == adr_number. */
  predicate LinkedTo(x: Value, adr: string) {
    x.JObj? && "related_adr" in x.fields && x.fields["related_adr"] == JStr(adr)
  }

  function FilterByAdr(xs: seq<Value>, adr: string): (r: seq<Value>)
    ensures IsSubsequence(r, xs)
  {
    if xs == [] then []
    else
      var rest := FilterByAdr(xs[1..], adr);
      if LinkedTo(xs[0], adr) then
        assert ([xs[0]] + rest)[1..] == rest;
        [xs[0]] + rest
      else
        SubsequenceOfTail(rest, xs);
        rest
  }

  lemma {:induction false} FilterByAdrMembers(xs: seq<Value>, adr: string)
    ensures forall x :: x in FilterByAdr(xs, adr) <==> x in xs && LinkedTo(x, adr)
    decreases |xs|
  {
    if xs != [] {
      FilterByAdrMembers(xs[1..], adr);
      assert forall x :: x in xs <==> x == xs[0] || x in xs[1..];
    }
  }

  /** get_intents_by_adr. */
  function IntentsByAdr(files: map<string, Value>, listing: seq<string>, adr: string): Result<seq<Value>> {
    match AllIntents(files, listing)
    case Err(e) => Err(e)
    case Ok(all) => Ok(FilterByAdr(all, adr))
  }

  /** get_intents_by_adr returns exactly the intents linked to the ADR, in the order of
      get_all_intents. */
  lemma IntentsByAdrSpec(files: map<string, Value>, listing: seq<string>, adr: string)
    ensures IntentsByAdr(files, listing, adr).Err? <==> AllIntents(files, listing).Err?
    ensures IntentsByAdr(files, listing, adr).Ok? ==>
      var all, r := AllIntents(files, listing).value, IntentsByAdr(files, listing, adr).value;
      && IsSubsequence(r, all)
      && (forall x :: x in r <==> x in all && LinkedTo(x, adr))
  {
    if AllIntents(files, listing).Ok? {
      FilterByAdrMembers(AllIntents(files, listing).value, adr);
    }
  }

  /** `(d.get(key, "") or "")`, which must then be a string for .lower(). */
  function TextField(d: map<string, Value>, key: string): Value {
    var v := Get(d, key, JStr(""));
    if Truthy(v) then v else JStr("")
  }

  /** The test of search_intents on one intent: `keyword` is already lower-cased. The goal is
      looked at first; the rationale only when the goal does not match. */
  function MatchIntent(x: Value, keyword: string): Result<bool> {
    if !x.JObj? then Err(AttributeError("'" + TypeName(x) + "' object has no attribute 'get'"))
    else
      var data := Get(x.fields, "intent", JObj(map[]));
      if !data.JObj? then Err(AttributeError("'" + TypeName(data) + "' object has no attribute 'get'"))
      else
        var goal, rationale := TextField(data.fields, "goal"), TextField(data.fields, "rationale");
        if !goal.JStr? then Err(AttributeError("'" + TypeName(goal) + "' object has no attribute 'lower'"))
        else if Contains(Lower(goal.s), keyword) then Ok(true)
        else if !rationale.JStr? then Err(AttributeError("'" + TypeName(rationale) + "' object has no attribute 'lower'"))
        else Ok(Contains(Lower(rationale.s), keyword))
  }

  /** The intent's goal or rationale contains the keyword, ignoring case. */
  predicate Mentions(x: Value, keyword: string) {
    x.JObj? && var data := Get(x.fields, "intent", JObj(map[]));
    data.JObj? &&
    var goal, rationale := TextField(data.fields, "goal"), TextField(data.fields, "rationale");
    (goal.JStr? && Contains(Lower(goal.s), Lower(keyword)))
    || (rationale.JStr? && Contains(Lower(rationale.s), Lower(keyword)))
  }

  function SearchFrom(xs: seq<Value>, keyword: string): (r: Result<seq<Value>>)
    ensures r.Ok? ==> IsSubsequence(r.value, xs)
  {
    if xs == [] then Ok([])
    else match MatchIntent(xs[0], keyword)
      case Err(e) => Err(e)
      case Ok(hit) =>
        match SearchFrom(xs[1..], keyword)
        case Err(e) => Err(e)
        case Ok(rest) =>
          if hit then
            assert ([xs[0]] + rest)[1..] == rest;
            Ok([xs[0]] + rest)
          else
            SubsequenceOfTail(rest, xs);
            Ok(rest)
  }

  /** search_intents. */
  function SearchIntents(files: map<string, Value>, listing: seq<string>, keyword: string): Result<seq<Value>> {
    match AllIntents(files, listing)
    case Err(e) => Err(e)
    case Ok(all) => SearchFrom(all, Lower(keyword))
  }

  /** Why the test of one intent raises: the intent or its `intent` entry is not a dict, its goal
      is not a string, or its goal does not match and its rationale is not a string. */
  predicate MatchFails(x: Value, keyword: string) {
    || !x.JObj?
    || var data := Get(x.fields, "intent", JObj(map[]));
       || !data.JObj?
       || var goal, rationale := TextField(data.fields, "goal"), TextField(data.fields, "rationale");
          || !goal.JStr?
          || (!Contains(Lower(goal.s), Lower(keyword)) && !rationale.JStr?)
  }

  lemma MatchIntentSpec(x: Value, keyword: string)
    ensures MatchIntent(x, Lower(keyword)).Err? <==> MatchFails(x, keyword)
    ensures MatchIntent(x, Lower(keyword)).Ok? ==> (MatchIntent(x, Lower(keyword)).value <==> Mentions(x, keyword))
  {
  }

  lemma {:induction false} SearchFromMembers(xs: seq<Value>, keyword: string)
    ensures SearchFrom(xs, Lower(keyword)).Ok? <==> forall i | 0 <= i < |xs| :: MatchIntent(xs[i], Lower(keyword)).Ok?
    ensures SearchFrom(xs, Lower(keyword)).Ok? ==>
      forall x :: x in SearchFrom(xs, Lower(keyword)).value <==> x in xs && Mentions(x, keyword)
    decreases |xs|
  {
    if xs != [] {
      SearchFromMembers(xs[1..], keyword);
      MatchIntentSpec(xs[0], keyword);
      assert forall x :: x in xs <==> x == xs[0] || x in xs[1..];
      assert forall i | 1 <= i < |xs| :: xs[i] == xs[1..][i - 1];
    }
  }

  /** search_intents returns exactly the intents whose goal or rationale contains the keyword,
      case-insensitively, in the order of get_all_intents; it fails when an intent's data or its
      goal (or, when the goal does not match, its rationale) has the wrong type. */
  lemma SearchIntentsSpec(files: map<string, Value>, listing: seq<string>, keyword: string)
    ensures SearchIntents(files, listing, keyword).Ok? <==>
      && AllIntents(files, listing).Ok?
      && forall x | x in AllIntents(files, listing).value :: MatchIntent(x, Lower(keyword)).Ok?
    ensures SearchIntents(files, listing, keyword).Ok? ==>
      var all, r := AllIntents(files, listing).value, SearchIntents(files, listing, keyword).value;
      && IsSubsequence(r, all)
      && (forall x :: x in r <==> x in all && Mentions(x, keyword))
  {
    if AllIntents(files, listing).Ok? {
      var all := AllIntents(files, listing).value;
      SearchFromMembers(all, keyword);
    }
  }

  // ---------------------------------------------------------------------------
  // The manager

  /** An IntentManager: `files` maps each file name in the intents directory to the YAML
      document it holds. */
  class IntentManager {
    var intentsDir: string
    var files: map<string, Value>

    /** IntentManager(state_dir): the intents directory may already hold files. */
    constructor(stateDir: string, existing: map<string, Value>)
      ensures intentsDir == stateDir + "/intents" && files == existing
    {
      intentsDir := stateDir + "/intents";
      files := existing;
    }

    /** get_intent: the document of the task's file, or None when there is none. */
    function GetIntent(taskId: string): (r: Option<Value>)
      reads this
      ensures r.None? <==> FileName(taskId) !in files
      ensures r.Some? ==> r.value == files[FileName(taskId)]
    {
      var name := FileName(taskId);
      if name in files then Some(files[name]) else None
    }

    /** save_intent: write the dict, with updated_at stamped, under its task id. */
    method SaveIntent(data: Dict, now: string, pyStr: Value -> string) returns (path: string)
      modifies this
      ensures intentsDir == old(intentsDir)
      ensures files == old(files)[FileName(TaskIdText(data, pyStr)) := JObj(Stamped(data, now))]
      ensures path == intentsDir + "/" + FileName(TaskIdText(data, pyStr))
      ensures GetIntent(TaskIdText(data, pyStr)) == Some(JObj(Stamped(data, now)))
      ensures forall id | id != TaskIdText(data, pyStr) :: GetIntent(id) == old(GetIntent(id))
    {
      var name := FileName(TaskIdText(data, pyStr));
      files := files[name := JObj(Stamped(data, now))];
      path := intentsDir + "/" + name;
      forall id | id != TaskIdText(data, pyStr) ensures FileName(id) != name {
        FileNameInjective(id, TaskIdText(data, pyStr));
      }
    }

    /** add_commit_to_intent. Nothing is written when there is no intent, when the hash is already
        recorded (which still counts as success) or when the document has the wrong shape. The
        updated intent is saved under the task id it holds, which is the one asked for when the
        document records its own id. */
    method AddCommitToIntent(taskId: string, hash: string, message: string, now: string, pyStr: Value -> string)
      returns (r: Result<bool>)
      modifies this
      ensures intentsDir == old(intentsDir)
      ensures var doc := old(GetIntent(taskId));
        && (doc.None? || !Truthy(doc.value) ==> r == Ok(false) && files == old(files))
        && (doc.Some? && Truthy(doc.value) && !doc.value.JObj? ==> r.Err? && files == old(files))
        && (doc.Some? && doc.value.JObj? && Truthy(doc.value) ==>
              var commits := CommitList(doc.value.fields);
              && (commits.Err? ==> r == Err(commits.error) && files == old(files))
              && (commits.Ok? && HasHash(commits.value, hash) ==> r == Ok(true) && files == old(files))
              && (commits.Ok? && !HasHash(commits.value, hash) ==>
                    var d := WithCommit(doc.value.fields, commits.value, hash, message, now);
                    r == Ok(true) && files == old(files)[FileName(TaskIdText(d, pyStr)) := JObj(Stamped(d, now))]))
    {
      var doc := GetIntent(taskId);
      if doc.None? || !Truthy(doc.value) {
        return Ok(false);
      }
      if !doc.value.JObj? {
        return Err(TypeError("'" + TypeName(doc.value) + "' object does not support item assignment"));
      }
      var commits := CommitList(doc.value.fields);
      if commits.Err? {
        return Err(commits.error);
      }
      if HasHash(commits.value, hash) {
        return Ok(true);
      }
      var d := WithCommit(doc.value.fields, commits.value, hash, message, now);
      var _ := SaveIntent(d, now, pyStr);
      return Ok(true);
    }

    /** link_adr: set related_adr and save; False when there is no intent. */
    method LinkAdr(taskId: string, adrNumber: string, now: string, pyStr: Value -> string) returns (r: Result<bool>)
      modifies this
      ensures intentsDir == old(intentsDir)
      ensures var doc := old(GetIntent(taskId));
        && (doc.None? || !Truthy(doc.value) ==> r == Ok(false) && files == old(files))
        && (doc.Some? && Truthy(doc.value) && !doc.value.JObj? ==> r.Err? && files == old(files))
        && (doc.Some? && doc.value.JObj? && Truthy(doc.value) ==>
              var d := doc.value.fields["related_adr" := JStr(adrNumber)]["updated_at" := JStr(now)];
              r == Ok(true) && files == old(files)[FileName(TaskIdText(d, pyStr)) := JObj(Stamped(d, now))])
    {
      var doc := GetIntent(taskId);
      if doc.None? || !Truthy(doc.value) {
        return Ok(false);
      }
      if !doc.value.JObj? {
        return Err(TypeError("'" + TypeName(doc.value) + "' object does not support item assignment"));
      }
      var d := doc.value.fields["related_adr" := JStr(adrNumber)]["updated_at" := JStr(now)];
      var _ := SaveIntent(d, now, pyStr);
      return Ok(true);
    }

    /** update_intent_field: set intent[field] (creating the intent mapping if absent) and save. */
    method UpdateIntentField(taskId: string, field: string, value: Value, now: string, pyStr: Value -> string)
      returns (r: Result<bool>)
      modifies this
      ensures intentsDir == old(intentsDir)
      ensures var doc := old(GetIntent(taskId));
        && (doc.None? || !Truthy(doc.value) ==> r == Ok(false) && files == old(files))
        && (doc.Some? && Truthy(doc.value) && !doc.value.JObj? ==> r.Err? && files == old(files))
        && (doc.Some? && doc.value.JObj? && Truthy(doc.value) ==>
              var inner := Get(doc.value.fields, "intent", JObj(map[]));
              && (!inner.JObj? ==> r.Err? && files == old(files))
              && (inner.JObj? ==>
                    var d := UpdatedField(doc.value.fields, field, value, now);
                    r == Ok(true) && files == old(files)[FileName(TaskIdText(d, pyStr)) := JObj(Stamped(d, now))]))
    {
      var doc := GetIntent(taskId);
      if doc.None? || !Truthy(doc.value) {
        return Ok(false);
      }
      if !doc.value.JObj? {
        return Err(TypeError("'" + TypeName(doc.value) + "' object does not support item assignment"));
      }
      var inner := Get(doc.value.fields, "intent", JObj(map[]));
      if !inner.JObj? {
        return Err(TypeError("'" + TypeName(inner) + "' object does not support item assignment"));
      }
      var d := UpdatedField(doc.value.fields, field, value, now);
      var _ := SaveIntent(d, now, pyStr);
      return Ok(true);
    }

    /** delete_intent: remove the task's file; False when there is none. */
    method DeleteIntent(taskId: string) returns (deleted: bool)
      modifies this
      ensures intentsDir == old(intentsDir)
      ensures deleted == (FileName(taskId) in old(files))
      ensures files == old(files) - {FileName(taskId)}
      ensures GetIntent(taskId) == None
    {
      var name := FileName(taskId);
      if name !in files {
        return false;
      }
      files := files - {name};
      return true;
    }
  }

  /** The intent dict after update_intent_field sets intent[field] and stamps updated_at. */
  function UpdatedField(doc: Dict, field: string, value: Value, now: string): Dict
    requires Get(doc, "intent", JObj(map[])).JObj?
  {
    var inner := Get(doc, "intent", JObj(map[])).fields;
    doc["intent" := JObj(inner[field := value])]["updated_at" := JStr(now)]
  }

  /** update_intent_field changes only intent[field] (and updated_at): every other entry of the
      intent mapping and every other field of the document keeps its value. */
  lemma UpdatedFieldSpec(doc: Dict, field: string, value: Value, now: string)
    requires Get(doc, "intent", JObj(map[])).JObj?
    ensures var d := UpdatedField(doc, field, value, now);
      && d["intent"].JObj? && field in d["intent"].fields && d["intent"].fields[field] == value
      && (forall k | k in Get(doc, "intent", JObj(map[])).fields && k != field ::
            k in d["intent"].fields && d["intent"].fields[k] == Get(doc, "intent", JObj(map[])).fields[k])
      && d.Keys == doc.Keys + {"intent", "updated_at"}
      && (forall k | k in doc && k != "intent" && k != "updated_at" :: d[k] == doc[k])
  {
  }
}
