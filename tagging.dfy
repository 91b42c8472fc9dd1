/**
 * Tags of a CFME object (cfme/common/__init__.py): `Taggable.get_tags`, which reads the
 * UI's tag lines such as `Department: Accounting | Engineering`, and
 * `Validatable.validate_tags`, which checks the UI's tags against the database's and
 * against the tags a test expects.
 */
module Tagging {
  import opened Wrappers
  import opened PyText

  /** A tag category; the UI never knows `single_value` (None), the database does. */
  datatype Category = Category(displayName: string, singleValue: Option<bool>)

  datatype Tag = Tag(category: Category, displayName: string)

  /** What `get_tags` raises. */
  datatype TagError =
    | UnknownFormat(entry: string)  // RuntimeError: a line without ':'
    | EmptyFilter                   // IndexError: `tag[0]` of an empty filter

  /** Which category the tags of a multi-valued line get: the first character of the
      filter argument, as the code is written, or the text before ':', as intended. */
  datatype Reading = AsWritten | Intended

  /** The line the UI shows when the object has no tags of group `tag`. */
  function NoTagsLine(tag: string): string
  {
    "No " + tag + " have been assigned"
  }

  /** One tag per name, all in category `name`, each name stripped. */
  function NamedTags(name: string, parts: seq<string>): (r: seq<Tag>)
    ensures |r| == |parts|
    ensures forall k :: 0 <= k < |parts| ==> r[k] == Tag(Category(name, None), Strip(parts[k]))
  {
    seq(|parts|, k requires 0 <= k < |parts| => Tag(Category(name, None), Strip(parts[k])))
  }

  /** The tags of one UI line `category: value`. */
  function ParseEntry(tag: string, entry: string, reading: Reading): (r: Result<seq<Tag>, TagError>)
    ensures r.Failure? <==> ':' !in entry
                            || (reading == AsWritten && tag == "" && Contains(SplitOnce(entry, ':').value.1, Bar))
    ensures r.Success? ==> |r.value| > 0
    ensures r.Success? ==> forall k :: 0 <= k < |r.value| ==>
              r.value[k].category.singleValue == None && IsStripped(r.value[k].displayName)
  {
    match SplitOnce(entry, ':')
    case None => Failure(UnknownFormat(entry))
    case Some((category, value)) =>
      if Contains(value, Bar) then
        if reading == AsWritten && |tag| == 0 then Failure(EmptyFilter)
        else Success(NamedTags(if reading == AsWritten then [tag[0]] else category, Split(value, Bar)))
      else
        Success(NamedTags(category, [value]))
  }

  /** Puts `ts` in front of the tags of a later result, keeping its error. */
  function Prepend(ts: seq<Tag>, r: Result<seq<Tag>, TagError>): Result<seq<Tag>, TagError>
  {
    match r
    case Success(rest) => Success(ts + rest)
    case Failure(e) => Failure(e)
  }

  /** The tags of UI lines `entries`, in order, stopping at the "No ... have been
      assigned" line; the first malformed line before it is the error. */
  function ParseTags(tag: string, entries: seq<string>, reading: Reading): Result<seq<Tag>, TagError>
  {
    if |entries| == 0 || entries[0] == NoTagsLine(tag) then Success([])
    else
      match ParseEntry(tag, entries[0], reading)
      case Failure(e) => Failure(e)
      case Success(ts) => Prepend(ts, ParseTags(tag, entries[1..], reading))
  }

  lemma PrependNothing(r: Result<seq<Tag>, TagError>)
    ensures Prepend([], r) == r
  {
    if r.Success? {
      assert [] + r.value == r.value;
    }
  }

  lemma PrependPrepend(a: seq<Tag>, b: seq<Tag>, r: Result<seq<Tag>, TagError>)
    ensures Prepend(a, Prepend(b, r)) == Prepend(a + b, r)
  {
    if r.Success? {
      assert a + (b + r.value) == (a + b) + r.value;
    }
  }

  /** One step of `ParseTags` on the lines from `i` on. */
  lemma ParseTagsStep(tag: string, entries: seq<string>, i: nat, reading: Reading)
    requires i < |entries|
    ensures ParseTags(tag, entries[i..], reading) ==
            if entries[i] == NoTagsLine(tag) then Success([])
            else match ParseEntry(tag, entries[i], reading)
                 case Failure(e) => Failure(e)
                 case Success(ts) => Prepend(ts, ParseTags(tag, entries[i + 1..], reading))
  {
    assert entries[i..][0] == entries[i];
    assert entries[i..][1..] == entries[i + 1..];
  }

  /** The tags of one line as `get_tags` builds them, under either reading: the imperative
      counterpart of `ParseEntry`, which specifies it. */
  method EntryTags(tag: string, entry: string, reading: Reading) returns (r: Result<seq<Tag>, TagError>)
    ensures r == ParseEntry(tag, entry, reading)
  {
    var split := SplitOnce(entry, ':');
    if split.None? {
      return Failure(UnknownFormat(entry));
    }
    var (category, value) := split.value;
    if !Contains(value, Bar) {
      assert NamedTags(category, [value]) == [Tag(Category(category, None), Strip(value))];
      return Success([Tag(Category(category, None), Strip(value))]);
    }
    if reading == AsWritten && |tag| == 0 {
      return Failure(EmptyFilter);
    }
    var name := if reading == AsWritten then [tag[0]] else category;
    var tags := SubTags(name, Split(value, Bar));
    return Success(tags);
  }

  /** The loop over the names of a multi-valued line: one tag per name, in order. */
  method SubTags(name: string, parts: seq<string>) returns (tags: seq<Tag>)
    ensures tags == NamedTags(name, parts)
  {
    tags := [];
    var k := 0;
    while k < |parts|
      invariant 0 <= k <= |parts|
      invariant tags == NamedTags(name, parts[..k])
    {
      NamedTagsStep(name, parts, k);
      tags := tags + [Tag(Category(name, None), Strip(parts[k]))];
      k := k + 1;
    }
    assert parts[..k] == parts;
  }

  lemma NamedTagsStep(name: string, parts: seq<string>, k: nat)
    requires k < |parts|
    ensures NamedTags(name, parts[..k + 1]) == NamedTags(name, parts[..k]) + [Tag(Category(name, None), Strip(parts[k]))]
  {
    var a := NamedTags(name, parts[..k + 1]);
    var b := NamedTags(name, parts[..k]) + [Tag(Category(name, None), Strip(parts[k]))];
    assert |a| == |b|;
    forall j | 0 <= j < |a|
      ensures a[j] == b[j]
    {
      if j < k {
        assert parts[..k + 1][j] == parts[..k][j];
      } else {
        assert parts[..k + 1][j] == parts[k];
      }
    }
  }

  /** `Taggable.get_tags(tag)`, fed with the lines the UI shows for the object; `AsWritten`
      is the code as it stands, `Intended` the reading with the category fixed. */
  method GetTags(tag: string, entries: seq<string>, reading: Reading) returns (r: Result<seq<Tag>, TagError>)
    ensures r == ParseTags(tag, entries, reading)
  {
    var tags: seq<Tag> := [];
    var i := 0;
    assert entries[0..] == entries;
    PrependNothing(ParseTags(tag, entries, reading));
    while i < |entries|
      invariant 0 <= i <= |entries|
      invariant ParseTags(tag, entries, reading) == Prepend(tags, ParseTags(tag, entries[i..], reading))
    {
      ParseTagsStep(tag, entries, i, reading);
      if entries[i] == NoTagsLine(tag) {
        assert tags + [] == tags;
        return Success(tags);
      }
      var found := EntryTags(tag, entries[i], reading);
      if found.Failure? {
        return Failure(found.error);
      }
      PrependPrepend(tags, found.value, ParseTags(tag, entries[i + 1..], reading));
      tags := tags + found.value;
      i := i + 1;
    }
    assert tags + [] == tags;
    return Success(tags);
  }

  /** Lines after the "No ... have been assigned" line are never read. */
  lemma {:induction false} ParseTagsStopsAtNoTagsLine(tag: string, entries: seq<string>, k: nat, reading: Reading)
    requires k < |entries| && entries[k] == NoTagsLine(tag)
    ensures ParseTags(tag, entries, reading) == ParseTags(tag, entries[..k], reading)
  {
    if k > 0 && entries[0] != NoTagsLine(tag) {
      ParseTagsStopsAtNoTagsLine(tag, entries[1..], k - 1, reading);
      assert entries[1..][..k - 1] == entries[..k][1..];
    }
  }

  /** No "No ... have been assigned" line among the first `k + 1` lines. */
  predicate ReachedBy(tag: string, entries: seq<string>, k: nat)
    requires k < |entries|
  {
    forall j :: 0 <= j <= k ==> entries[j] != NoTagsLine(tag)
  }

  /** `get_tags` raises exactly when some line read before the "No ... have been assigned"
      line is malformed; its error is that of the first such line. */
  lemma {:induction false} ParseTagsFailsIff(tag: string, entries: seq<string>, reading: Reading)
    ensures ParseTags(tag, entries, reading).Failure? <==>
            exists k :: 0 <= k < |entries| && ReachedBy(tag, entries, k)
                        && ParseEntry(tag, entries[k], reading).Failure?
  {
    if |entries| > 0 && entries[0] != NoTagsLine(tag) {
      var rest := entries[1..];
      ParseTagsFailsIff(tag, rest, reading);
      if ParseEntry(tag, entries[0], reading).Success? {
        if ParseTags(tag, entries, reading).Failure? {
          var k' :| 0 <= k' < |rest| && ReachedBy(tag, rest, k') && ParseEntry(tag, rest[k'], reading).Failure?;
          ReachedByShift(tag, entries, k' + 1);
        }
        if exists k :: 0 <= k < |entries| && ReachedBy(tag, entries, k)
                       && ParseEntry(tag, entries[k], reading).Failure? {
          var k :| 0 <= k < |entries| && ReachedBy(tag, entries, k) && ParseEntry(tag, entries[k], reading).Failure?;
          ReachedByShift(tag, entries, k);
          assert ReachedBy(tag, rest, k - 1) && ParseEntry(tag, rest[k - 1], reading).Failure?;
        }
      } else {
        assert ReachedBy(tag, entries, 0);
      }
    } else if |entries| > 0 {
      assert forall k :: 0 <= k < |entries| ==> !ReachedBy(tag, entries, k);
    }
  }

  /** Dropping a first line that is not the "No ... have been assigned" line shifts
      `ReachedBy` by one. */
  lemma ReachedByShift(tag: string, entries: seq<string>, k: nat)
    requires 1 <= k < |entries| && entries[0] != NoTagsLine(tag)
    ensures ReachedBy(tag, entries, k) <==> ReachedBy(tag, entries[1..], k - 1)
    ensures entries[k] == entries[1..][k - 1]
  {
    assert forall j :: 1 <= j <= k ==> entries[j] == entries[1..][j - 1];
  }

  /** Tags come out in the order of their lines: parsing two blocks of lines one after the
      other is parsing the first and then the second. */
  lemma {:induction false} ParseTagsAppend(tag: string, a: seq<string>, b: seq<string>, reading: Reading)
    requires NoTagsLine(tag) !in a
    ensures ParseTags(tag, a + b, reading) ==
            match ParseTags(tag, a, reading)
            case Success(ts) => Prepend(ts, ParseTags(tag, b, reading))
            case Failure(e) => Failure(e)
  {
    if |a| == 0 {
      assert a + b == b;
      PrependNothing(ParseTags(tag, b, reading));
    } else {
      assert (a + b)[0] == a[0] && (a + b)[1..] == a[1..] + b;
      ParseTagsAppend(tag, a[1..], b, reading);
      var first := ParseEntry(tag, a[0], reading);
      var rest := ParseTags(tag, a[1..], reading);
      if first.Success? && rest.Success? {
        PrependPrepend(first.value, rest.value, ParseTags(tag, b, reading));
      }
    }
  }

  /** One line as the UI renders a category and its tag names. */
  datatype TagLine = TagLine(category: string, names: seq<string>)

  /** A line the UI can render unambiguously: a category without ':', at least one name,
      names without '|' and without surrounding whitespace. */
  predicate Renderable(g: TagLine)
  {
    && ':' !in g.category
    && |g.names| > 0
    && forall k :: 0 <= k < |g.names| ==> '|' !in g.names[k] && IsStripped(g.names[k])
  }

  /** `Department: Accounting | Engineering`. */
  function Render(g: TagLine): string
  {
    g.category + ": " + Join(g.names, Bar)
  }

  /** The tags one line stands for. */
  function LineTags(g: TagLine): seq<Tag>
  {
    seq(|g.names|, k requires 0 <= k < |g.names| => Tag(Category(g.category, None), g.names[k]))
  }

  function RenderAll(gs: seq<TagLine>): seq<string>
  {
    seq(|gs|, k requires 0 <= k < |gs| => Render(gs[k]))
  }

  function AllTags(gs: seq<TagLine>): seq<Tag>
  {
    if |gs| == 0 then [] else LineTags(gs[0]) + AllTags(gs[1..])
  }

  /** The value after ':' of a rendered line, split at `" | "`. */
  lemma RenderedValue(g: TagLine)
    requires Renderable(g)
    ensures SplitOnce(Render(g), ':') == Some((g.category, " " + Join(g.names, Bar)))
    ensures Split(" " + Join(g.names, Bar), Bar) == [" " + g.names[0]] + g.names[1..]
  {
    assert Render(g) == g.category + [':'] + (" " + Join(g.names, Bar));
    SplitOnceAt(g.category, ':', " " + Join(g.names, Bar));
    var padded := [" " + g.names[0]] + g.names[1..];
    assert padded[1..] == g.names[1..];
    assert Join(padded, Bar) == " " + Join(g.names, Bar);
    SplitJoinBarless(padded);
  }

  /** A rendered line parses back into its names; the category they get is the line's own,
      except for a multi-valued line read as written, whose tags all get the first
      character of the filter argument. */
  lemma ParseRendered(tag: string, g: TagLine, reading: Reading)
    requires Renderable(g)
    requires reading == AsWritten ==> |tag| > 0
    ensures ParseEntry(tag, Render(g), reading) ==
            Success(LineTags(TagLine(if reading == AsWritten && |g.names| >= 2 then [tag[0]] else g.category, g.names)))
  {
    RenderedValue(g);
    var value := " " + Join(g.names, Bar);
    var padded := [" " + g.names[0]] + g.names[1..];
    SplitPieces(value, Bar);
    var name := if reading == AsWritten && |g.names| >= 2 then [tag[0]] else g.category;
    if |g.names| == 1 {
      assert padded == [value];
    }
    assert ParseEntry(tag, Render(g), reading) == Success(NamedTags(name, padded));
    PaddedNames(name, g.names);
  }

  /** The names of a rendered line, the first still carrying the blank after ':', give
      the line's tags once stripped. */
  lemma PaddedNames(name: string, names: seq<string>)
    requires |names| > 0
    requires forall k :: 0 <= k < |names| ==> IsStripped(names[k])
    ensures NamedTags(name, [" " + names[0]] + names[1..]) == LineTags(TagLine(name, names))
  {
    var padded := [" " + names[0]] + names[1..];
    var r := NamedTags(name, padded);
    var expected := LineTags(TagLine(name, names));
    forall k | 0 <= k < |names| ensures r[k] == expected[k] {
      if k == 0 {
        StripAfterBlank(names[0]);
      } else {
        assert padded[k] == names[k];
        StripStripped(names[k]);
      }
    }
  }

  /** Read as intended, a rendered line gives back exactly its tags. */
  lemma IntendedLineRoundTrip(tag: string, g: TagLine)
    requires Renderable(g)
    ensures ParseEntry(tag, Render(g), Intended) == Success(LineTags(g))
  {
    ParseRendered(tag, g, Intended);
  }

  /** Read as intended, the UI lines of any renderable tag lines give back all their tags,
      in order, as long as the group name holds no ':'. */
  lemma {:induction false} IntendedRoundTrip(tag: string, gs: seq<TagLine>)
    requires ':' !in tag
    requires forall k :: 0 <= k < |gs| ==> Renderable(gs[k])
    ensures ParseTags(tag, RenderAll(gs), Intended) == Success(AllTags(gs))
  {
    if |gs| > 0 {
      var lines := RenderAll(gs);
      assert lines[0] == Render(gs[0]);
      assert ':' in lines[0] by {
        assert lines[0][|gs[0].category|] == ':';
      }
      assert ':' !in NoTagsLine(tag);
      assert lines[1..] == RenderAll(gs[1..]);
      IntendedLineRoundTrip(tag, gs[0]);
      IntendedRoundTrip(tag, gs[1..]);
    } else {
      PrependNothing(Success([]));
    }
  }

  /** As written, the tags of a multi-valued line are all filed under the first character
      of the filter argument, so they differ from the line's tags whenever its category is
      anything else. */
  lemma AsWrittenMultiValuedCategory(tag: string, g: TagLine)
    requires Renderable(g) && |g.names| >= 2 && |tag| > 0
    ensures ParseEntry(tag, Render(g), AsWritten) == Success(LineTags(TagLine([tag[0]], g.names)))
    ensures g.category != [tag[0]] ==> ParseEntry(tag, Render(g), AsWritten) != Success(LineTags(g))
  {
    ParseRendered(tag, g, AsWritten);
    assert LineTags(TagLine([tag[0]], g.names))[0].category.displayName == [tag[0]];
    assert LineTags(g)[0].category.displayName == g.category;
  }

  /** The tag line `Department: Accounting | Engineering`. */
  function DepartmentLine(): TagLine
  {
    TagLine("Department", ["Accounting", "Engineering"])
  }

  lemma DepartmentLineRenderable()
    ensures Renderable(DepartmentLine())
  {
    var names := DepartmentLine().names;
    assert IsStripped(names[0]) && IsStripped(names[1]);
    assert '|' !in names[0] && '|' !in names[1];
  }

  /** The UI line `Department: Accounting | Engineering` of the default tag group shows the
      bug: both departments come back in category "M". */
  lemma AsWrittenDepartmentExample(tag: string)
    requires tag == "My Company Tags"
    ensures ParseTags(tag, [Render(DepartmentLine())], AsWritten)
            == Success([Tag(Category("M", None), "Accounting"), Tag(Category("M", None), "Engineering")])
  {
    var g := DepartmentLine();
    DepartmentLineRenderable();
    assert [tag[0]] == "M";
    assert ':' !in tag;
    SingleLine(tag, g, AsWritten);
    AsWrittenMultiValuedCategory(tag, g);
    DepartmentTags();
  }

  lemma DepartmentTags()
    ensures LineTags(TagLine("M", DepartmentLine().names))
            == [Tag(Category("M", None), "Accounting"), Tag(Category("M", None), "Engineering")]
  {
  }

  // ---------------------------------------------------------------------------------
  // Ordering tags as `sorted(tags, key=lambda x: (x.category.display_name, x.display_name))`

  datatype TagKey = TagKey(category: string, name: string)

  function KeyOf(t: Tag): TagKey
  {
    TagKey(t.category.displayName, t.displayName)
  }

  function Keys(ts: seq<Tag>): seq<TagKey>
  {
    seq(|ts|, i requires 0 <= i < |ts| => KeyOf(ts[i]))
  }

  lemma KeysAppend(a: seq<Tag>, b: seq<Tag>)
    ensures Keys(a + b) == Keys(a) + Keys(b)
  {
  }

  /** Python's tuple comparison `(c1, n1) <= (c2, n2)`. */
  predicate KeyLe(a: TagKey, b: TagKey)
  {
    StrLe(a.category, b.category) && (a.category == b.category ==> StrLe(a.name, b.name))
  }

  lemma KeyLeTotal(a: TagKey, b: TagKey)
    ensures KeyLe(a, b) || KeyLe(b, a)
  {
    StrLeTotal(a.category, b.category);
    StrLeTotal(a.name, b.name);
  }

  lemma KeyLeAntisymmetric(a: TagKey, b: TagKey)
    requires KeyLe(a, b) && KeyLe(b, a)
    ensures a == b
  {
    StrLeAntisymmetric(a.category, b.category);
    StrLeAntisymmetric(a.name, b.name);
  }

  lemma KeyLeTransitive(a: TagKey, b: TagKey, c: TagKey)
    requires KeyLe(a, b) && KeyLe(b, c)
    ensures KeyLe(a, c)
  {
    StrLeTransitive(a.category, b.category, c.category);
    if a.category == c.category {
      StrLeAntisymmetric(a.category, b.category);
      StrLeTransitive(a.name, b.name, c.name);
    }
  }

  predicate SortedKeys(ks: seq<TagKey>)
  {
    forall i, j :: 0 <= i < j < |ks| ==> KeyLe(ks[i], ks[j])
  }

  /** Puts `x` before the first tag whose key is not below its own. */
  function Insert(x: Tag, ts: seq<Tag>): seq<Tag>
  {
    if |ts| == 0 then [x]
    else if KeyLe(KeyOf(x), KeyOf(ts[0])) then [x] + ts
    else [ts[0]] + Insert(x, ts[1..])
  }

  /** `sorted(ts, key=...)`: an insertion sort; it keeps equal keys in their order. */
  function SortByKey(ts: seq<Tag>): seq<Tag>
  {
    if |ts| == 0 then [] else Insert(ts[0], SortByKey(ts[1..]))
  }

  lemma KeysCons(t: Tag, ts: seq<Tag>)
    ensures Keys([t] + ts) == [KeyOf(t)] + Keys(ts)
  {
    KeysAppend([t], ts);
    assert Keys([t]) == [KeyOf(t)];
  }

  lemma {:induction false} InsertKeeps(x: Tag, ts: seq<Tag>)
    ensures multiset(Insert(x, ts)) == multiset(ts) + multiset{x}
  {
    if |ts| > 0 && !KeyLe(KeyOf(x), KeyOf(ts[0])) {
      InsertKeeps(x, ts[1..]);
      assert ts == [ts[0]] + ts[1..];
    }
  }

  lemma {:induction false} InsertKeepsKeys(x: Tag, ts: seq<Tag>)
    ensures multiset(Keys(Insert(x, ts))) == multiset(Keys(ts)) + multiset{KeyOf(x)}
  {
    if |ts| == 0 {
      assert Keys([x]) == [KeyOf(x)];
    } else if KeyLe(KeyOf(x), KeyOf(ts[0])) {
      KeysCons(x, ts);
    } else {
      InsertKeepsKeys(x, ts[1..]);
      assert ts == [ts[0]] + ts[1..];
      KeysCons(ts[0], ts[1..]);
      KeysCons(ts[0], Insert(x, ts[1..]));
    }
  }

  /** Sorting keeps the tags, counting repeats, and so their number. */
  lemma {:induction false} SortByKeyKeeps(ts: seq<Tag>)
    ensures multiset(SortByKey(ts)) == multiset(ts)
    ensures |SortByKey(ts)| == |ts|
  {
    if |ts| > 0 {
      SortByKeyKeeps(ts[1..]);
      InsertKeeps(ts[0], SortByKey(ts[1..]));
      assert ts == [ts[0]] + ts[1..];
    }
    assert |SortByKey(ts)| == |multiset(SortByKey(ts))|;
  }

  /** Sorting keeps the keys, counting repeats. */
  lemma {:induction false} SortByKeyKeepsKeys(ts: seq<Tag>)
    ensures multiset(Keys(SortByKey(ts))) == multiset(Keys(ts))
  {
    if |ts| > 0 {
      SortByKeyKeepsKeys(ts[1..]);
      InsertKeepsKeys(ts[0], SortByKey(ts[1..]));
      assert ts == [ts[0]] + ts[1..];
      KeysCons(ts[0], ts[1..]);
    }
  }

  /** A key below every key of a sorted list can go in front of it. */
  lemma ConsSorted(k: TagKey, ks: seq<TagKey>)
    requires SortedKeys(ks)
    requires forall j :: 0 <= j < |ks| ==> KeyLe(k, ks[j])
    ensures SortedKeys([k] + ks)
  {
    var rs := [k] + ks;
    forall i, j | 0 <= i < j < |rs| ensures KeyLe(rs[i], rs[j]) {
      assert rs[j] == ks[j - 1];
      if i > 0 {
        assert rs[i] == ks[i - 1];
      }
    }
  }

  /** A bound on every key of `ks` and on `k` bounds every key of a list holding exactly
      those keys. */
  lemma LowerBound(b: TagKey, k: TagKey, ks: seq<TagKey>, rs: seq<TagKey>)
    requires KeyLe(b, k) && forall m :: 0 <= m < |ks| ==> KeyLe(b, ks[m])
    requires multiset(rs) == multiset(ks) + multiset{k}
    ensures forall j :: 0 <= j < |rs| ==> KeyLe(b, rs[j])
  {
    forall j | 0 <= j < |rs| ensures KeyLe(b, rs[j]) {
      assert rs[j] in multiset(rs);
      if rs[j] != k {
        assert rs[j] in multiset(ks);
        var m :| 0 <= m < |ks| && ks[m] == rs[j];
      }
    }
  }

  /** Inserting a key that goes before the head. */
  lemma InsertFront(kx: TagKey, ks: seq<TagKey>)
    requires SortedKeys(ks) && |ks| > 0 && KeyLe(kx, ks[0])
    ensures SortedKeys([kx] + ks)
  {
    forall j | 0 <= j < |ks| ensures KeyLe(kx, ks[j]) {
      if j > 0 {
        KeyLeTransitive(kx, ks[0], ks[j]);
      }
    }
    ConsSorted(kx, ks);
  }

  lemma {:induction false} InsertSorted(x: Tag, ts: seq<Tag>)
    requires SortedKeys(Keys(ts))
    ensures SortedKeys(Keys(Insert(x, ts)))
  {
    if |ts| > 0 {
      var ks := Keys(ts);
      var kx := KeyOf(x);
      KeysCons(ts[0], ts[1..]);
      assert ts == [ts[0]] + ts[1..];
      if KeyLe(kx, ks[0]) {
        KeysCons(x, ts);
        InsertFront(kx, ks);
      } else {
        KeyLeTotal(kx, ks[0]);
        SortedTail(ks);
        InsertSorted(x, ts[1..]);
        InsertKeepsKeys(x, ts[1..]);
        var tail := Keys(Insert(x, ts[1..]));
        LowerBound(ks[0], kx, ks[1..], tail);
        KeysCons(ts[0], Insert(x, ts[1..]));
        ConsSorted(ks[0], tail);
      }
    }
  }

  /** Sorting orders the tags by category, then name. */
  lemma {:induction false} SortByKeySorted(ts: seq<Tag>)
    ensures SortedKeys(Keys(SortByKey(ts)))
  {
    if |ts| > 0 {
      SortByKeySorted(ts[1..]);
      InsertSorted(ts[0], SortByKey(ts[1..]));
    }
  }

  /** The first key of a sorted list is below every key in it. */
  lemma SortedHeadLeast(a: seq<TagKey>, k: TagKey)
    requires SortedKeys(a) && k in a
    ensures KeyLe(a[0], k)
  {
    var i :| 0 <= i < |a| && a[i] == k;
    if i == 0 {
      KeyLeTotal(k, k);
    }
  }

  lemma SortedTail(a: seq<TagKey>)
    requires SortedKeys(a) && |a| > 0
    ensures SortedKeys(a[1..])
  {
    forall i, j | 0 <= i < j < |a[1..]| ensures KeyLe(a[1..][i], a[1..][j]) {
      assert a[1..][i] == a[i + 1] && a[1..][j] == a[j + 1];
    }
  }

  /** The multiset of a non-empty list is its head and the multiset of its tail. */
  lemma MultisetTail(a: seq<TagKey>)
    requires |a| > 0
    ensures multiset(a[1..]) == multiset(a) - multiset{a[0]}
  {
    assert a == [a[0]] + a[1..];
  }

  /** Two sorted key lists holding the same keys are the same list. */
  lemma {:induction false} SortedUnique(a: seq<TagKey>, b: seq<TagKey>)
    requires SortedKeys(a) && SortedKeys(b) && multiset(a) == multiset(b)
    ensures a == b
  {
    if |a| == 0 {
      assert |multiset(b)| == 0;
    } else {
      assert |b| == |multiset(b)| == |multiset(a)| == |a|;
      assert a[0] in multiset(b) && b[0] in multiset(a);
      SortedHeadLeast(a, b[0]);
      SortedHeadLeast(b, a[0]);
      KeyLeAntisymmetric(a[0], b[0]);
      MultisetTail(a);
      MultisetTail(b);
      SortedTail(a);
      SortedTail(b);
      SortedUnique(a[1..], b[1..]);
      assert a == [a[0]] + a[1..] && b == [b[0]] + b[1..];
    }
  }

  /** After sorting both lists, their keys agree position by position exactly when the two
      lists hold the same keys. */
  lemma SortedKeysAgree(a: seq<Tag>, b: seq<Tag>)
    ensures Keys(SortByKey(a)) == Keys(SortByKey(b)) <==> multiset(Keys(a)) == multiset(Keys(b))
  {
    SortByKeyKeepsKeys(a);
    SortByKeyKeepsKeys(b);
    if multiset(Keys(a)) == multiset(Keys(b)) {
      SortByKeySorted(a);
      SortByKeySorted(b);
      SortedUnique(Keys(SortByKey(a)), Keys(SortByKey(b)));
    }
  }

  // ---------------------------------------------------------------------------------
  // validate_tags

  /** The `reference_tags` argument: None, a list of tags, or an object that is not a list
      (with its Python truthiness). */
  datatype RefArg = NoRefs | RefList(tags: seq<Tag>) | NotAList(truthy: bool)

  /** Why validation fails: the KeyError, the error `get_tags` raised, or the first
      assertion that does not hold. */
  datatype Mismatch =
    | ReferenceNotList
    | UiTagsRaised(error: TagError)
    | CountMismatch
    | CategoryMismatch(expected: string, actual: string)
    | NameMismatch(expected: string, actual: string)
    | SingleValueMismatch(reference: Tag)
    | NotFound(reference: Tag)

  datatype Verdict = Passed | Failed(reason: Mismatch)

  /** A reference tag is in the database, and every database tag with its category and
      name has its `single_value`. */
  predicate Backed(ref: Tag, db: seq<Tag>)
  {
    && (exists d :: d in db && KeyOf(d) == KeyOf(ref))
    && (forall d :: d in db && KeyOf(d) == KeyOf(ref) ==> d.category.singleValue == ref.category.singleValue)
  }

  /** What `validate_tags` checks: the UI and the database show the same tags (by category
      and name, counting repeats), and every reference tag is backed by the database. */
  predicate TagsValid(refs: RefArg, ui: Result<seq<Tag>, TagError>, db: seq<Tag>)
  {
    && refs != NotAList(true)
    && ui.Success?
    && |ui.value| == |db|
    && multiset(Keys(ui.value)) == multiset(Keys(db))
    && (refs.RefList? ==> forall r :: r in refs.tags ==> Backed(r, db))
  }

  /** The pairwise comparison of the two sorted lists: the first position whose category,
      then name, differ. */
  method CompareSorted(tagsDb: seq<Tag>, tagsUi: seq<Tag>) returns (m: Option<Mismatch>)
    requires |tagsDb| == |tagsUi|
    ensures m.None? <==> Keys(tagsDb) == Keys(tagsUi)
    ensures m.Some? ==> m.value.CategoryMismatch? || m.value.NameMismatch?
  {
    var i := 0;
    while i < |tagsDb|
      invariant 0 <= i <= |tagsDb|
      invariant forall j :: 0 <= j < i ==> KeyOf(tagsDb[j]) == KeyOf(tagsUi[j])
    {
      if tagsDb[i].category.displayName != tagsUi[i].category.displayName {
        assert Keys(tagsDb)[i] != Keys(tagsUi)[i];
        return Some(CategoryMismatch(tagsDb[i].category.displayName, tagsUi[i].category.displayName));
      }
      if tagsDb[i].displayName != tagsUi[i].displayName {
        assert Keys(tagsDb)[i] != Keys(tagsUi)[i];
        return Some(NameMismatch(tagsDb[i].displayName, tagsUi[i].displayName));
      }
      i := i + 1;
    }
    return None;
  }

  /** The search of the database tags for one reference tag. */
  method CheckReference(ref: Tag, tagsDb: seq<Tag>) returns (m: Option<Mismatch>)
    ensures m.None? <==> Backed(ref, tagsDb)
    ensures m.Some? ==> m.value == SingleValueMismatch(ref) || m.value == NotFound(ref)
    ensures m == Some(NotFound(ref)) <==> forall d :: d in tagsDb ==> KeyOf(d) != KeyOf(ref)
  {
    var found := false;
    var m' := 0;
    while m' < |tagsDb|
      invariant 0 <= m' <= |tagsDb|
      invariant found <==> exists j :: 0 <= j < m' && KeyOf(tagsDb[j]) == KeyOf(ref)
      invariant forall j :: 0 <= j < m' && KeyOf(tagsDb[j]) == KeyOf(ref) ==>
                  tagsDb[j].category.singleValue == ref.category.singleValue
    {
      var d := tagsDb[m'];
      if ref.category.displayName == d.category.displayName && ref.displayName == d.displayName {
        found := true;
        if ref.category.singleValue != d.category.singleValue {
          assert d in tagsDb && KeyOf(d) == KeyOf(ref);
          return Some(SingleValueMismatch(ref));
        }
      }
      m' := m' + 1;
    }
    if !found {
      forall d | d in tagsDb
        ensures KeyOf(d) != KeyOf(ref)
      {
        var j :| 0 <= j < |tagsDb| && tagsDb[j] == d;
      }
      return Some(NotFound(ref));
    }
    return None;
  }

  /** The count assertion and the pairwise comparison after sorting; also returns the
      database tags in the order the reference check walks them. */
  method CompareWithDb(tagsUi: seq<Tag>, db: seq<Tag>) returns (m: Option<Mismatch>, tagsDb: seq<Tag>)
    ensures m.None? <==> |tagsUi| == |db| && multiset(Keys(tagsUi)) == multiset(Keys(db))
    ensures m == Some(CountMismatch) <==> |tagsUi| != |db|
    ensures m.Some? && m.value != CountMismatch ==> m.value.CategoryMismatch? || m.value.NameMismatch?
    ensures forall d :: d in tagsDb <==> d in db
  {
    tagsDb := db;
    if |db| != |tagsUi| {
      return Some(CountMismatch), tagsDb;
    }
    if |tagsUi| == 0 {
      assert Keys(tagsUi) == [] == Keys(db);
      return None, tagsDb;
    }
    var sortedUi := SortByKey(tagsUi);
    tagsDb := SortByKey(db);
    SortByKeyKeeps(db);
    SortByKeyKeeps(tagsUi);
    SameMembers(tagsDb, db);
    SortedKeysAgree(db, tagsUi);
    m := CompareSorted(tagsDb, sortedUi);
  }

  /** The reference tags checked one by one against the database tags. */
  method CheckReferences(refs: seq<Tag>, tagsDb: seq<Tag>, db: seq<Tag>) returns (m: Option<Mismatch>)
    requires forall d :: d in tagsDb <==> d in db
    ensures m.None? <==> forall r :: r in refs ==> Backed(r, db)
    ensures m.Some? ==> (m.value.SingleValueMismatch? || m.value.NotFound?)
                        && m.value.reference in refs && !Backed(m.value.reference, db)
    ensures m.Some? && m.value.NotFound? ==> forall d :: d in db ==> KeyOf(d) != KeyOf(m.value.reference)
  {
    var n := 0;
    while n < |refs|
      invariant 0 <= n <= |refs|
      invariant forall j :: 0 <= j < n ==> Backed(refs[j], db)
    {
      var mismatch := CheckReference(refs[n], tagsDb);
      assert Backed(refs[n], tagsDb) <==> Backed(refs[n], db);
      if mismatch.Some? {
        return mismatch;
      }
      n := n + 1;
    }
    return None;
  }

  /** `Validatable.validate_tags(tag, reference_tags)`, with the result of
      `get_tags(method='ui')` and the tags `get_tags(method='db')` returns. */
  method ValidateTags(refs: RefArg, ui: Result<seq<Tag>, TagError>, db: seq<Tag>) returns (v: Verdict)
    ensures v.Passed? <==> TagsValid(refs, ui, db)
    ensures v == Failed(ReferenceNotList) <==> refs == NotAList(true)
    ensures (v.Failed? && v.reason.UiTagsRaised?) <==> refs != NotAList(true) && ui.Failure?
    ensures v == Failed(CountMismatch) <==> refs != NotAList(true) && ui.Success? && |ui.value| != |db|
    ensures (v.Failed? && (v.reason.CategoryMismatch? || v.reason.NameMismatch?)) <==>
            && refs != NotAList(true) && ui.Success? && |ui.value| == |db|
            && multiset(Keys(ui.value)) != multiset(Keys(db))
    ensures v.Failed? && (v.reason.SingleValueMismatch? || v.reason.NotFound?) ==>
            refs.RefList? && v.reason.reference in refs.tags && !Backed(v.reason.reference, db)
    ensures v.Failed? && v.reason.NotFound? ==>
            forall d :: d in db ==> KeyOf(d) != KeyOf(v.reason.reference)
  {
    if refs.NotAList? && refs.truthy {
      return Failed(ReferenceNotList);
    }
    if ui.Failure? {
      return Failed(UiTagsRaised(ui.error));
    }
    var mismatch, tagsDb := CompareWithDb(ui.value, db);
    if mismatch.Some? {
      return Failed(mismatch.value);
    }
    if refs.RefList? && |refs.tags| > 0 {
      mismatch := CheckReferences(refs.tags, tagsDb, db);
      if mismatch.Some? {
        return Failed(mismatch.value);
      }
    }
    return Passed;
  }

  /** Reordering keeps the members. */
  lemma SameMembers(a: seq<Tag>, b: seq<Tag>)
    requires multiset(a) == multiset(b)
    ensures forall d :: d in a <==> d in b
  {
    assert forall d :: d in a <==> d in multiset(a);
    assert forall d :: d in b <==> d in multiset(b);
  }

  /** A tag group of one rendered line is parsed from that line alone. */
  lemma SingleLine(tag: string, g: TagLine, reading: Reading)
    requires Renderable(g) && ':' !in tag
    ensures ParseTags(tag, [Render(g)], reading) == ParseEntry(tag, Render(g), reading)
  {
    var lines := [Render(g)];
    assert lines[0][|g.category|] == ':';
    assert ':' !in NoTagsLine(tag);
    assert lines[0] != NoTagsLine(tag);
    ParseTagsStep(tag, lines, 0, reading);
    assert lines[0..] == lines && lines[1..] == [];
    assert ParseTags(tag, lines[1..], reading) == Success([]);
    var r := ParseEntry(tag, Render(g), reading);
    if r.Success? {
      assert r.value + [] == r.value;
      assert ParseTags(tag, lines, reading) == Prepend(r.value, Success([]));
    }
  }

  /** As written, a multi-valued UI line never validates against the database tags it
      stands for when its category is not one character long. */
  lemma AsWrittenFailsValidation(tag: string, g: TagLine, db: seq<Tag>)
    requires Renderable(g) && |g.names| >= 2 && |g.category| != 1
    requires |tag| > 0 && ':' !in tag
    requires Keys(db) == Keys(LineTags(g))
    ensures !TagsValid(NoRefs, ParseTags(tag, [Render(g)], AsWritten), db)
  {
    AsWrittenMultiValuedCategory(tag, g);
    SingleLine(tag, g, AsWritten);
    var uiTags := LineTags(TagLine([tag[0]], g.names));
    var k := Keys(uiTags)[0];
    LineKeysCategory(g);
    MissingKeyInvalid(NoRefs, ParseTags(tag, [Render(g)], AsWritten), db, k);
  }

  /** Every key of a line's tags carries the line's category. */
  lemma LineKeysCategory(g: TagLine)
    ensures forall x :: x in Keys(LineTags(g)) ==> x.category == g.category
  {
  }

  /** A parsed key that no database tag has makes validation fail. */
  lemma MissingKeyInvalid(refs: RefArg, ui: Result<seq<Tag>, TagError>, db: seq<Tag>, k: TagKey)
    requires ui.Success? && k in Keys(ui.value) && k !in Keys(db)
    ensures !TagsValid(refs, ui, db)
  {
    assert k in multiset(Keys(ui.value));
    assert k !in multiset(Keys(db));
  }

  /** Read as intended, the UI lines rendered from the database's tags validate. */
  lemma IntendedPassesValidation(tag: string, gs: seq<TagLine>, db: seq<Tag>)
    requires ':' !in tag
    requires forall k :: 0 <= k < |gs| ==> Renderable(gs[k])
    requires Keys(db) == Keys(AllTags(gs))
    ensures TagsValid(NoRefs, ParseTags(tag, RenderAll(gs), Intended), db)
  {
    IntendedRoundTrip(tag, gs);
  }
}
