/**
 * `save_data`: write a document to its JSON file, in append mode merging it
 * into what the file already holds. The file system is reduced to what the
 * function observes of it: whether the directory could be made, whether the
 * file exists and what `json.load` made of it, and whether the write went
 * through.
 */
module MergeStore {

  import opened Wrappers
  import opened OrderedMaps
  import opened Json
  import opened Scraper

  /**
   * What `lst.extend(v)` appends for a JSON value `v`: the items of a list,
   * the characters of a string (each a one-character string), the keys of an
   * object; a number, a boolean or null is not iterable and raises.
   */
  function ExtendItems(v: J): (r: Option<seq<J>>)
    ensures r.None? <==> !(v.JList? || v.JStr? || v.JObj?)
    ensures v.JList? ==> r == Some(v.items)
    ensures v.JStr? ==> r.Some? && |r.value| == |v.s|
                        && forall i :: 0 <= i < |v.s| ==> r.value[i] == JStr([v.s[i]])
    ensures v.JObj? ==> r.Some? && |r.value| == |v.fields|
                        && forall i :: 0 <= i < |v.fields| ==> r.value[i] == JStr(v.fields[i].0)
  {
    match v
    case JList(xs) => Some(xs)
    case JStr(s) => Some(Chars(s))
    case JObj(fs) => Some(seq(|fs|, i requires 0 <= i < |fs| => JStr(fs[i].0)))
    case _ => None
  }

  /** Iterating a string: one single-character string per character. */
  function Chars(s: string): (r: seq<J>)
    ensures |r| == |s| && forall i :: 0 <= i < |s| ==> r[i] == JStr([s[i]])
  {
    seq(|s|, i requires 0 <= i < |s| => JStr([s[i]]))
  }

  /** The list an existing key contributes before the extension: `setdefault`'s `[]` for a new key. */
  function Prior(fields: Entries<J>, k: string): seq<J>
  {
    var cur := Get(fields, k);
    if cur.Some? && cur.value.JList? then cur.value.items else []
  }

  /**
   * `setdefault(k, []).extend(v)` succeeds: the key is new or holds a list,
   * and `v` can be iterated.
   */
  predicate Extendable(fields: Entries<J>, k: string, v: J)
  {
    (Get(fields, k).None? || Get(fields, k).value.JList?) && ExtendItems(v).Some?
  }

  /** One step of the dict merge, `None` where it raises (fetcher.py:467). */
  function SetDefaultExtend(fields: Entries<J>, k: string, v: J): (r: Option<Entries<J>>)
    ensures r.Some? <==> Extendable(fields, k, v)
    ensures r.Some? ==> r.value == Put(fields, k, JList(Prior(fields, k) + ExtendItems(v).value))
  {
    var cur := Get(fields, k);
    if cur.Some? && !cur.value.JList? then None
    else
      match ExtendItems(v)
      case None => None
      case Some(xs) => Some(Put(fields, k, JList(Prior(fields, k) + xs)))
  }

  /** The dict merge over the entries of `data` in order (fetcher.py:466-468). */
  function MergeFields(existing: Entries<J>, data: Entries<J>): (r: Option<Entries<J>>)
    ensures r.Some? ==> Keys(existing) <= Keys(r.value)
    decreases |data|
  {
    if data == [] then Some(existing)
    else
      match SetDefaultExtend(existing, data[0].0, data[0].1)
      case None => None
      case Some(next) =>
        PutKeys(existing, data[0].0, JList(Prior(existing, data[0].0) + ExtendItems(data[0].1).value));
        MergeFields(next, data[1..])
  }

  /** The merge loop, updating the loaded document entry by entry. */
  method MergeDicts(existing: Entries<J>, data: Entries<J>) returns (r: Option<Entries<J>>)
    ensures r == MergeFields(existing, data)
  {
    var acc := existing;
    var i := 0;
    while i < |data|
      invariant 0 <= i <= |data|
      invariant MergeFields(existing, data) == MergeFields(acc, data[i..])
    {
      assert data[i..][1..] == data[i + 1..];
      var step := SetDefaultExtend(acc, data[i].0, data[i].1);
      if step.None? {
        return None;
      }
      acc := step.value;
      i := i + 1;
    }
    assert data[i..] == [];
    return Some(acc);
  }

  /** The keys of `data` that `existing` lacks, in the order of `data`. */
  function NewKeys(data: Entries<J>, existing: Entries<J>): seq<string>
    decreases |data|
  {
    if data == [] then []
    else (if data[0].0 in Keys(existing) then [] else [data[0].0]) + NewKeys(data[1..], existing)
  }

  lemma {:induction false} NewKeysSame(data: Entries<J>, e: Entries<J>, e': Entries<J>)
    requires forall i :: 0 <= i < |data| ==> (data[i].0 in Keys(e) <==> data[i].0 in Keys(e'))
    ensures NewKeys(data, e) == NewKeys(data, e')
    decreases |data|
  {
    if data != [] {
      NewKeysSame(data[1..], e, e');
    }
  }

  lemma KeysTail(m: Entries<J>, k: string)
    requires m != [] && k != m[0].0
    ensures k in Keys(m) <==> k in Keys(m[1..])
    ensures Get(m, k) == Get(m[1..], k)
  {
    assert Keys(m) == [m[0].0] + Keys(m[1..]);
  }

  /**
   * The dict merge fails exactly when some entry of `data` meets a key that
   * holds something other than a list, or brings a value that cannot be
   * iterated; nothing is written then.
   */
  lemma {:induction false} MergeFieldsFails(existing: Entries<J>, data: Entries<J>)
    requires UniqueKeys(data)
    ensures MergeFields(existing, data).None?
            <==> exists i :: 0 <= i < |data| && !Extendable(existing, data[i].0, data[i].1)
    decreases |data|
  {
    if data != [] {
      var k := data[0].0;
      TailUnique(data);
      var step := SetDefaultExtend(existing, k, data[0].1);
      if step.Some? {
        var next := step.value;
        MergeFieldsFails(next, data[1..]);
        forall i | 1 <= i < |data|
          ensures Extendable(next, data[i].0, data[i].1) == Extendable(existing, data[i].0, data[i].1)
        {
          assert Keys(data[1..])[i - 1] == data[i].0;
          PutGet(existing, k, JList(Prior(existing, k) + ExtendItems(data[0].1).value), data[i].0);
        }
        if MergeFields(existing, data).None? {
          var j :| 0 <= j < |data[1..]| && !Extendable(next, data[1..][j].0, data[1..][j].1);
          assert data[1..][j] == data[j + 1];
        } else {
          forall i | 0 <= i < |data| ensures Extendable(existing, data[i].0, data[i].1) {
            if i > 0 {
              assert data[1..][i - 1] == data[i];
            }
          }
        }
      }
    }
  }

  /** A successful dict merge leaves a dict: no key appears twice. */
  lemma {:induction false} MergeFieldsUnique(existing: Entries<J>, data: Entries<J>)
    requires UniqueKeys(existing)
    requires MergeFields(existing, data).Some?
    ensures UniqueKeys(MergeFields(existing, data).value)
    decreases |data|
  {
    if data != [] {
      var k := data[0].0;
      var v := JList(Prior(existing, k) + ExtendItems(data[0].1).value);
      PutUnique(existing, k, v);
      MergeFieldsUnique(Put(existing, k, v), data[1..]);
    }
  }

  /**
   * A successful dict merge keeps the old keys where they were and adds the
   * new keys of `data` after them, in the order of `data`.
   */
  lemma {:induction false} MergeFieldsKeys(existing: Entries<J>, data: Entries<J>)
    requires UniqueKeys(data)
    requires MergeFields(existing, data).Some?
    ensures Keys(MergeFields(existing, data).value) == Keys(existing) + NewKeys(data, existing)
    decreases |data|
  {
    if data == [] {
      assert Keys(existing) + NewKeys(data, existing) == Keys(existing);
    } else {
      var k := data[0].0;
      var v := JList(Prior(existing, k) + ExtendItems(data[0].1).value);
      var next := Put(existing, k, v);
      var rest := data[1..];
      TailUnique(data);
      MergeFieldsKeys(next, rest);
      KeysAfterStep(existing, data, v);
    }
  }

  /** The bookkeeping of one merge step for `MergeFieldsKeys`. */
  lemma KeysAfterStep(existing: Entries<J>, data: Entries<J>, v: J)
    requires data != [] && UniqueKeys(data)
    ensures Keys(Put(existing, data[0].0, v)) + NewKeys(data[1..], Put(existing, data[0].0, v))
            == Keys(existing) + NewKeys(data, existing)
  {
    var k := data[0].0;
    var ks := Keys(existing);
    var later := NewKeys(data[1..], existing);
    NewKeysAfterPut(existing, data, v);
    NewKeysCons(data, existing);
    PutKeys(existing, k, v);
    if k in ks {
      assert NewKeys(data, existing) == later;
    } else {
      SeqAssoc(ks, [k], later);
    }
  }

  lemma NewKeysCons(data: Entries<J>, existing: Entries<J>)
    requires data != []
    ensures NewKeys(data, existing)
            == (if data[0].0 in Keys(existing) then [] else [data[0].0]) + NewKeys(data[1..], existing)
  {
  }

  lemma SeqAssoc(a: seq<string>, b: seq<string>, c: seq<string>)
    ensures (a + b) + c == a + (b + c)
  {
  }

  /** The later keys of `data` are new after the first one's step exactly when they were new before. */
  lemma NewKeysAfterPut(existing: Entries<J>, data: Entries<J>, v: J)
    requires data != [] && UniqueKeys(data)
    ensures NewKeys(data[1..], Put(existing, data[0].0, v)) == NewKeys(data[1..], existing)
  {
    var k := data[0].0;
    var next := Put(existing, k, v);
    var rest := data[1..];
    TailUnique(data);
    PutKeys(existing, k, v);
    forall i | 0 <= i < |rest| ensures (rest[i].0 in Keys(next) <==> rest[i].0 in Keys(existing)) {
      assert Keys(rest)[i] == rest[i].0;
    }
    NewKeysSame(rest, next, existing);
  }

  /**
   * After a successful dict merge every key of `data` holds its old list
   * (`[]` for a new key) followed by the items of its new value.
   */
  lemma {:induction false} MergeFieldsValues(existing: Entries<J>, data: Entries<J>)
    requires UniqueKeys(data)
    requires MergeFields(existing, data).Some?
    ensures forall i :: 0 <= i < |data| ==>
              Extendable(existing, data[i].0, data[i].1)
              && Get(MergeFields(existing, data).value, data[i].0)
              == Some(JList(Prior(existing, data[i].0) + ExtendItems(data[i].1).value))
    decreases |data|
  {
    MergeFieldsFails(existing, data);
    if data != [] {
      var k := data[0].0;
      var v := JList(Prior(existing, k) + ExtendItems(data[0].1).value);
      var next := Put(existing, k, v);
      var rest := data[1..];
      TailUnique(data);
      MergeFieldsValues(next, rest);
      MergeFieldsOthers(next, rest, k);
      var r := MergeFields(existing, data).value;
      forall i | 0 <= i < |data|
        ensures Extendable(existing, data[i].0, data[i].1)
        ensures Get(r, data[i].0) == Some(JList(Prior(existing, data[i].0) + ExtendItems(data[i].1).value))
      {
        if i == 0 {
          PutGet(existing, k, v, k);
        } else {
          assert rest[i - 1] == data[i];
          assert Keys(rest)[i - 1] == data[i].0;
          PutGet(existing, k, v, data[i].0);
        }
      }
    }
  }

  /** A dict merge leaves the keys `data` does not mention as they were. */
  lemma {:induction false} MergeFieldsOthers(existing: Entries<J>, data: Entries<J>, k: string)
    requires MergeFields(existing, data).Some?
    requires k !in Keys(data)
    ensures Get(MergeFields(existing, data).value, k) == Get(existing, k)
    decreases |data|
  {
    if data != [] {
      var k0 := data[0].0;
      var v := JList(Prior(existing, k0) + ExtendItems(data[0].1).value);
      assert Keys(data) == [k0] + Keys(data[1..]);
      MergeFieldsOthers(Put(existing, k0, v), data[1..], k);
      PutGet(existing, k0, v, k);
    }
  }

  /** What `save_data` does with the two documents in append mode. */
  datatype Merged =
    | Combined(doc: J)   // the merged document is written
    | Mismatch           // shapes do not fit: the new data is written as it is
    | Raised             // an exception: nothing is written

  /**
   * The merge of `data` into the loaded document (fetcher.py:465-479). The
   * new data is written unmerged exactly when the shapes fit none of the three
   * merge branches: two dicts, two lists, or a dict holding "posts" and a
   * list. The merge raises exactly when the dict merge fails, or when the
   * "posts" value of the loaded dict is not a list that a list could extend.
   */
  function Reconcile(existing: J, data: J): (m: Merged)
    ensures m == Mismatch
            <==> && !(existing.JObj? && data.JObj?)
                 && !(existing.JList? && data.JList?)
                 && !(existing.JObj? && "posts" in Keys(existing.fields) && data.JList?)
    ensures m == Raised
            <==> || (existing.JObj? && data.JObj? && MergeFields(existing.fields, data.fields).None?)
                 || (existing.JObj? && data.JList? && Get(existing.fields, "posts").Some?
                     && !Get(existing.fields, "posts").value.JList?)
  {
    if existing.JObj? && data.JObj? then
      match MergeFields(existing.fields, data.fields)
      case None => Raised
      case Some(fs) => Combined(JObj(fs))
    else if existing.JList? && data.JList? then
      Combined(JList(existing.items + data.items))
    else if existing.JObj? && "posts" in Keys(existing.fields) && data.JList? then
      var posts := Get(existing.fields, "posts").value;
      if posts.JList? then Combined(JObj(Put(existing.fields, "posts", JList(posts.items + data.items))))
      else Raised
    else
      Mismatch
  }

  /** The mode `save_data` is called with: `'w'` or `'a'`. */
  datatype Mode = Overwrite | Append

  /** The file as `save_data` finds it in append mode. */
  datatype Existing =
    | Absent          // `os.path.exists` is false
    | Unreadable      // opening or `json.load` raises
    | Loaded(doc: J)  // what `json.load` returned

  /** The file after the call. */
  datatype FileAfter =
    | Untouched        // never opened for writing, or `open` raised: the old content is intact
    | Written(doc: J)  // holds this document
    | Damaged          // opened with `'w'` (truncated) and then `json.dump` raised

  /** Where the run ends: the result, the file and whether the mismatch fallback was taken. */
  datatype Outcome = Outcome(ok: bool, file: FileAfter, fellBack: bool)

  /**
   * `open(filename, 'w')` and then `json.dump` (fetcher.py:484-485). An
   * `open` that raises leaves the old file as it was; once it has opened the
   * file, the old content is gone, and a `json.dump` that raises leaves the
   * file damaged.
   */
  function WriteOut(doc: J, openOk: bool, dumpOk: bool, fellBack: bool): (o: Outcome)
    ensures o.fellBack == fellBack
    ensures o.ok <==> openOk && dumpOk
    ensures o.ok ==> o.file == Written(doc)
    ensures !openOk ==> o.file == Untouched
    ensures openOk && !dumpOk ==> o.file == Damaged
  {
    if !openOk then Outcome(false, Untouched, fellBack)
    else if !dumpOk then Outcome(false, Damaged, fellBack)
    else Outcome(true, Written(doc), fellBack)
  }

  /**
   * `save_data` (fetcher.py:456-491). `dirOk` is whether `os.makedirs`
   * succeeded, `file` what the append branch finds, `openOk` whether
   * `open(filename, 'w')` succeeded and `dumpOk` whether `json.dump` did.
   */
  method SaveData(data: J, mode: Mode, dirOk: bool, file: Existing, openOk: bool, dumpOk: bool)
    returns (o: Outcome)
    ensures !dirOk ==> o == Outcome(false, Untouched, false)
    ensures dirOk && (mode == Overwrite || file == Absent) ==> o == WriteOut(data, openOk, dumpOk, false)
    ensures dirOk && mode == Append && file == Unreadable ==> o == Outcome(false, Untouched, false)
    ensures dirOk && mode == Append && file.Loaded? ==>
              match Reconcile(file.doc, data)
              case Combined(doc) => o == WriteOut(doc, openOk, dumpOk, false)
              case Mismatch => o == WriteOut(data, openOk, dumpOk, true)
              case Raised => o == Outcome(false, Untouched, false)
    ensures o.ok ==> o.file.Written?
    ensures o.file == Damaged ==> dirOk && openOk && !dumpOk
  {
    if !dirOk {
      return Outcome(false, Untouched, false);
    }
    var toSave := data;
    var fellBack := false;
    if mode == Append && file != Absent {
      if file == Unreadable {
        return Outcome(false, Untouched, false);
      }
      var existing := file.doc;
      if existing.JObj? && data.JObj? {
        var merged := MergeDicts(existing.fields, data.fields);
        if merged.None? {
          return Outcome(false, Untouched, false);
        }
        toSave := JObj(merged.value);
      } else if existing.JList? && data.JList? {
        toSave := JList(existing.items + data.items);
      } else if existing.JObj? && "posts" in Keys(existing.fields) && data.JList? {
        var posts := Get(existing.fields, "posts").value;
        if !posts.JList? {
          return Outcome(false, Untouched, false);
        }
        toSave := JObj(Put(existing.fields, "posts", JList(posts.items + data.items)));
      } else {
        fellBack := true;
      }
    }
    o := WriteOut(toSave, openOk, dumpOk, fellBack);
  }

  /**
   * Appending a one-category run onto a file holding one: the loaded
   * "category" is a string, which has no `extend`, so the save fails and
   * the file keeps its content.
   */
  lemma SingleCategoryAppendRaises(c1: string, p1: seq<Post>, c2: string, p2: seq<Post>)
    ensures Reconcile(SingleCategoryPayload(c1, p1), SingleCategoryPayload(c2, p2)) == Raised
  {
    var e := SingleCategoryPayload(c1, p1).fields;
    assert Get(e, "category") == Some(JStr(c1));
  }

  /**
   * Appending a one-category run onto a file without a "category" key that
   * holds "posts" as a list: "category" becomes the list of the characters
   * of the name and the new posts follow the old ones.
   */
  lemma SingleCategoryOntoPostsFile(existing: Entries<J>, before: seq<J>, c: string, posts: seq<Post>)
    requires "category" !in Keys(existing)
    requires Get(existing, "posts") == Some(JList(before))
    ensures Reconcile(JObj(existing), SingleCategoryPayload(c, posts)).Combined?
    ensures var doc := Reconcile(JObj(existing), SingleCategoryPayload(c, posts)).doc;
            && doc.JObj?
            && Get(doc.fields, "category") == Some(JList(Chars(c)))
            && Get(doc.fields, "posts") == Some(JList(before + PostsJson(posts)))
            && Keys(doc.fields) == Keys(existing) + ["category"]
  {
    var items := PostsJson(posts);
    var d := [("category", JStr(c)), ("posts", JList(items))];
    assert SingleCategoryPayload(c, posts) == JObj(d);
    CategoryOntoPosts(existing, before, "category", c, "posts", items);
    assert Reconcile(JObj(existing), JObj(d)) == Combined(JObj(MergeFields(existing, d).value));
  }

  /**
   * `SingleCategoryOntoPostsFile` for any two distinct keys and any list of
   * new items: the merge of `{kc: c, kp: items}`.
   */
  lemma CategoryOntoPosts(existing: Entries<J>, before: seq<J>, kc: string, c: string, kp: string, items: seq<J>)
    requires kc != kp
    requires kc !in Keys(existing)
    requires Get(existing, kp) == Some(JList(before))
    ensures MergeFields(existing, [(kc, JStr(c)), (kp, JList(items))]).Some?
    ensures var r := MergeFields(existing, [(kc, JStr(c)), (kp, JList(items))]).value;
            && Get(r, kc) == Some(JList(Chars(c)))
            && Get(r, kp) == Some(JList(before + items))
            && Keys(r) == Keys(existing) + [kc]
  {
    var d := [(kc, JStr(c)), (kp, JList(items))];
    var e1 := Put(existing, kc, JList(Chars(c)));
    var e2 := Put(e1, kp, JList(before + items));
    assert SetDefaultExtend(existing, kc, JStr(c)) == Some(e1) by {
      assert Prior(existing, kc) == [] && [] + Chars(c) == Chars(c);
    }
    PutGetOther(existing, kc, JList(Chars(c)), kp);
    assert SetDefaultExtend(e1, kp, JList(items)) == Some(e2);
    var tail: Entries<J> := [(kp, JList(items))];
    assert MergeFields(e1, tail) == Some(e2) by {
      assert tail[1..] == [];
      assert MergeFields(e2, []) == Some(e2);
    }
    assert MergeFields(existing, d) == Some(e2) by {
      assert d[1..] == tail;
    }
    PutGetOther(e1, kp, JList(before + items), kc);
    PutGetSame(existing, kc, JList(Chars(c)));
    PutGetSame(e1, kp, JList(before + items));
    PutKeysNew(existing, kc, JList(Chars(c)));
    PutKeysOld(e1, kp, JList(before + items));
  }

  /**
   * The dict merge of two dicts of lists: each key of the data gets its new
   * items after its old ones, and every other key keeps its value.
   */
  lemma ListDictsAppend(existing: Entries<J>, data: Entries<J>, k: string)
    requires UniqueKeys(existing) && UniqueKeys(data)
    requires AllLists(data) && AllLists(existing)
    ensures Reconcile(JObj(existing), JObj(data)).Combined?
    ensures var doc := Reconcile(JObj(existing), JObj(data)).doc;
            && doc.JObj? && UniqueKeys(doc.fields)
            && Get(doc.fields, k) == if k in Keys(data) then Some(JList(Prior(existing, k) + Get(data, k).value.items))
                                     else Get(existing, k)
  {
    ListsExtendable(existing, data);
    MergeFieldsFails(existing, data);
    var r := MergeFields(existing, data).value;
    MergeFieldsUnique(existing, data);
    assert Reconcile(JObj(existing), JObj(data)) == Combined(JObj(r));
    if k in Keys(data) {
      var i :| 0 <= i < |data| && Keys(data)[i] == k;
      GetEntry(data, i);
      MergeFieldsValues(existing, data);
      assert Get(r, data[i].0) == Some(JList(Prior(existing, k) + ExtendItems(data[i].1).value));
    } else {
      MergeFieldsOthers(existing, data, k);
    }
  }

  /** Lists extend lists: every step of merging list-valued entries into list-valued entries succeeds. */
  lemma ListsExtendable(existing: Entries<J>, data: Entries<J>)
    requires forall i :: 0 <= i < |data| ==> data[i].1.JList?
    requires forall i :: 0 <= i < |existing| ==> existing[i].1.JList?
    ensures forall i :: 0 <= i < |data| ==> Extendable(existing, data[i].0, data[i].1)
  {
    forall i | 0 <= i < |data| ensures Extendable(existing, data[i].0, data[i].1) {
      if Get(existing, data[i].0).Some? {
        var j :| 0 <= j < |existing| && existing[j] == (data[i].0, Get(existing, data[i].0).value);
      }
    }
  }

  /** A list appended onto a list: the old items, then the new ones (fetcher.py:470-472). */
  lemma ListsConcatenate(xs: seq<J>, ys: seq<J>)
    ensures Reconcile(JList(xs), JList(ys)).Combined?
    ensures var doc := Reconcile(JList(xs), JList(ys)).doc;
            && doc.JList? && |doc.items| == |xs| + |ys|
            && doc.items[..|xs|] == xs && doc.items[|xs|..] == ys
  {
    assert (xs + ys)[..|xs|] == xs && (xs + ys)[|xs|..] == ys;
  }

  /**
   * Appending a multi-category run (fetcher.py:612-628) onto a file of
   * category lists: the category of a run, fetched last under its name,
   * holds its old posts followed by the run's tagged posts.
   */
  lemma MultiCategoryAppend(existing: Entries<J>, runs: seq<(string, seq<Post>)>, i: nat)
    requires UniqueKeys(existing) && AllLists(existing)
    requires i < |runs| && forall j :: i < j < |runs| ==> runs[j].0 != runs[i].0
    ensures Reconcile(JObj(existing), MultiCategoryPayload(runs)).Combined?
    ensures var doc := Reconcile(JObj(existing), MultiCategoryPayload(runs)).doc;
            && doc.JObj? && UniqueKeys(doc.fields)
            && Get(doc.fields, runs[i].0) == Some(JList(Prior(existing, runs[i].0) + TagPosts(runs[i].1, runs[i].0)))
  {
    var data := MultiCategoryFields(runs);
    MultiCategoryFieldsShape(runs);
    MultiCategoryLookup(runs, i);
    ListDictsAppend(existing, data, runs[i].0);
  }

  /** A multi-category append leaves the categories the run did not fetch as they were. */
  lemma MultiCategoryAppendOthers(existing: Entries<J>, runs: seq<(string, seq<Post>)>, k: string)
    requires UniqueKeys(existing) && AllLists(existing)
    requires forall j :: 0 <= j < |runs| ==> runs[j].0 != k
    ensures Reconcile(JObj(existing), MultiCategoryPayload(runs)).Combined?
    ensures Get(Reconcile(JObj(existing), MultiCategoryPayload(runs)).doc.fields, k) == Get(existing, k)
  {
    MultiCategoryFieldsShape(runs);
    MultiCategoryKeyAbsent(runs, k);
    ListDictsAppend(existing, MultiCategoryFields(runs), k);
  }

  /**
   * Appending a run without categories (`{"posts": data}`, fetcher.py:638)
   * onto a file holding a "posts" list: the new posts follow the old ones,
   * and the keys and every other value stay as they were.
   */
  lemma NoCategoryOntoPostsFile(existing: Entries<J>, before: seq<J>, posts: seq<Post>)
    requires Get(existing, "posts") == Some(JList(before))
    ensures Reconcile(JObj(existing), NoCategoryPayload(posts))
         == Combined(JObj(Put(existing, "posts", JList(before + PostsJson(posts)))))
    ensures Keys(Put(existing, "posts", JList(before + PostsJson(posts)))) == Keys(existing)
  {
    var items := PostsJson(posts);
    var d: Entries<J> := [("posts", JList(items))];
    var e := Put(existing, "posts", JList(before + items));
    assert NoCategoryPayload(posts) == JObj(d);
    assert SetDefaultExtend(existing, "posts", JList(items)) == Some(e);
    assert MergeFields(existing, d) == Some(e) by {
      assert d[1..] == [];
      assert MergeFields(e, []) == Some(e);
    }
    PutKeysOld(existing, "posts", JList(before + items));
  }

  /**
   * A list appended onto a document with a "posts" list: the posts get the
   * new items after the old ones, and every other key, and the key order,
   * stay as they were (fetcher.py:473-475).
   */
  lemma PostsExtended(existing: Entries<J>, before: seq<J>, items: seq<J>, k: string)
    requires Get(existing, "posts") == Some(JList(before))
    ensures Reconcile(JObj(existing), JList(items)).Combined?
    ensures var doc := Reconcile(JObj(existing), JList(items)).doc;
            && doc.JObj?
            && Get(doc.fields, "posts") == Some(JList(before + items))
            && (k != "posts" ==> Get(doc.fields, k) == Get(existing, k))
            && Keys(doc.fields) == Keys(existing)
  {
    var fs := Put(existing, "posts", JList(before + items));
    assert Reconcile(JObj(existing), JList(items)) == Combined(JObj(fs));
    PutGetSame(existing, "posts", JList(before + items));
    if k != "posts" {
      PutGetOther(existing, "posts", JList(before + items), k);
    }
    PutKeysOld(existing, "posts", JList(before + items));
  }

  /** A "posts" entry that is not a list cannot be extended: the save fails. */
  lemma PostsNotList(existing: Entries<J>, items: seq<J>)
    requires Get(existing, "posts").Some? && !Get(existing, "posts").value.JList?
    ensures Reconcile(JObj(existing), JList(items)) == Raised
  {
  }

  /** Appending an empty list of posts leaves a list or a posts document as it was. */
  lemma AppendNothing(existing: J)
    requires existing.JList? || (existing.JObj? && UniqueKeys(existing.fields)
                                 && Get(existing.fields, "posts").Some?
                                 && Get(existing.fields, "posts").value.JList?)
    ensures Reconcile(existing, JList([])) == Combined(existing)
  {
    if existing.JList? {
      assert existing.items + [] == existing.items;
    } else {
      var fs := existing.fields;
      var xs := Get(fs, "posts").value.items;
      assert "posts" in Keys(fs);
      assert Reconcile(existing, JList([])) == Combined(JObj(Put(fs, "posts", JList(xs + []))));
      assert xs + [] == xs;
      PutSame(fs, "posts", JList(xs));
    }
  }

  /** Assigning a key the value it already has changes nothing. */
  lemma {:induction false} PutSame(m: Entries<J>, k: string, v: J)
    requires UniqueKeys(m) && Get(m, k) == Some(v)
    ensures Put(m, k, v) == m
  {
    if m[0].0 != k {
      TailUnique(m);
      KeysTail(m, k);
      PutSame(m[1..], k, v);
    } else {
      assert m[0] == (k, v);
    }
  }

}
