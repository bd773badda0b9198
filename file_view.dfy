/** The file tree view (src/infrastructure/views/FileHierarchicView.ts):
    the attribute filters, the filtered file list, and the recursive
    grouping of files by the values of a list of header attributes. */
module FileView {
  import opened Results
  import opened Text
  import opened Seqs
  import opened Sorting
  import opened Model

  // --------------------------------------------------------------- filters

  /** The filters: per attribute, the accepted values; `None` is `null`,
      which accepts a falsy or missing attribute. */
  type Filters = map<string, seq<Option<string>>>

  /** `filterBy` after `setFilter(name, values)`: an empty list removes the
      attribute's filter, any other list replaces it. */
  function WithFilter(filters: Filters, name: string, values: seq<Option<string>>): Filters {
    if values == [] then filters - {name} else filters[name := values]
  }

  /** Setting a filter touches only its attribute: it is filtered exactly
      when the list is non-empty, by that list, and the other attributes keep
      their filters. */
  lemma WithFilterSpec(filters: Filters, name: string, values: seq<Option<string>>)
    ensures var r := WithFilter(filters, name, values);
      && (name in r <==> values != [])
      && (name in r ==> r[name] == values)
      && (forall n :: n != name ==> (n in r <==> n in filters))
      && (forall n :: n != name && n in r ==> r[n] == filters[n])
  {
  }

  /** A header value passes a filter list: `null` is listed and the value is
      falsy, or its string form is listed. */
  predicate Accepts(allowed: seq<Option<string>>, v: Option<Yaml>) {
    (!YTruthy(v) && None in allowed) || Some(YToString(v)) in allowed
  }

  predicate PassesFilters(filters: Filters, f: ParsedFile) {
    forall n :: n in filters ==> Accepts(filters[n], YGet(f.fileProperties.attributes, n))
  }

  function PassesAll(filters: Filters): ParsedFile -> bool {
    (f: ParsedFile) => PassesFilters(filters, f)
  }

  /** `getFilteredFiles`. */
  function FilteredFiles(files: seq<ParsedFile>, filters: Filters): seq<ParsedFile> {
    Filter(files, PassesAll(filters))
  }

  /** The filtered list keeps the files' order and holds exactly the files
      every filter accepts; without filters it is the whole list. */
  lemma FilteredFilesSpec(files: seq<ParsedFile>, filters: Filters)
    ensures Subseq(FilteredFiles(files, filters), files)
    ensures forall f :: f in FilteredFiles(files, filters) <==>
      f in files && forall n :: n in filters ==> Accepts(filters[n], YGet(f.fileProperties.attributes, n))
    ensures filters == map[] ==> FilteredFiles(files, filters) == files
  {
    FilterSubseq(files, PassesAll(filters));
    if filters == map[] {
      FilterAll(files, PassesAll(filters));
    }
  }

  /** A missing attribute passes a filter exactly when it lists `null` or
      the text "undefined". */
  lemma MissingAttributeFilter(allowed: seq<Option<string>>)
    ensures Accepts(allowed, None) <==> None in allowed || Some("undefined") in allowed
  {
  }

  // ------------------------------------------------------------- the view

  /** The stored grouping setting: a list of attribute names, or a value of
      another shape left by an older version. */
  datatype GroupBySetting = AttributeNames(names: seq<string>) | LegacySetting

  class FileTreeView {
    var groupBy: GroupBySetting
    var filterBy: Filters

    /** The stored settings, or `["project"]` and no filters, then
        `migrateV11`. */
    constructor(storedGroupBy: Option<GroupBySetting>, storedFilters: Option<Filters>)
      ensures groupBy == if storedGroupBy.Some? && storedGroupBy.value.AttributeNames? then storedGroupBy.value
                         else AttributeNames(["project"])
      ensures filterBy == if storedFilters.Some? then storedFilters.value else map[]
    {
      groupBy := if storedGroupBy.Some? then storedGroupBy.value else AttributeNames(["project"]);
      filterBy := if storedFilters.Some? then storedFilters.value else map[];
      new;
      MigrateV11();
    }

    /** `migrateV11`: a grouping that is not a list becomes `["project"]`. */
    method MigrateV11()
      modifies this
      ensures groupBy == if old(groupBy).AttributeNames? then old(groupBy) else AttributeNames(["project"])
      ensures groupBy.AttributeNames?
      ensures filterBy == old(filterBy)
    {
      if !groupBy.AttributeNames? {
        groupBy := AttributeNames(["project"]);
      }
    }

    /** `setFilter`. */
    method SetFilter(name: string, values: seq<Option<string>>)
      modifies this
      ensures filterBy == WithFilter(old(filterBy), name, values)
      ensures groupBy == old(groupBy)
    {
      if values == [] {
        filterBy := filterBy - {name};
      } else {
        filterBy := filterBy[name := values];
      }
    }
  }

  // -------------------------------------------------------------- grouping

  /** An item of the file tree: a group for one attribute value, a file, or
      an attachment. */
  datatype FileTreeItem =
    | GroupItem(attributeName: string, attributeValue: string, children: seq<FileTreeItem>)
    | FileItem(file: ParsedFile)
    | AttachmentItem(attachment: Attachment)

  /** `attributeNames[0]`, as a key: "undefined" for an empty list. */
  function FirstName(names: seq<string>): string {
    if names == [] then "undefined" else names[0]
  }

  function ValueOf(f: ParsedFile, name: string): Option<Yaml> {
    YGet(f.fileProperties.attributes, name)
  }

  /** The file has a truthy header to group by. */
  predicate HasHeader(f: ParsedFile) {
    YTruthy(Some(f.fileProperties.attributes))
  }

  /** The file goes among the files without the attribute. */
  predicate NonMatching(name: string, f: ParsedFile) {
    HasHeader(f) && !YTruthy(ValueOf(f, name))
  }

  /** The file goes in the group of `value`. */
  predicate InGroup(name: string, value: string, f: ParsedFile) {
    HasHeader(f) && YTruthy(ValueOf(f, name)) && YToString(ValueOf(f, name)) == value
  }

  function NonMatchingOn(name: string): ParsedFile -> bool {
    (f: ParsedFile) => NonMatching(name, f)
  }

  function InGroupOf(name: string, value: string): ParsedFile -> bool {
    (f: ParsedFile) => InGroup(name, value, f)
  }

  /** What the `forEach` of `getItemsByAttributeRec` builds: the group keys
      in insertion order, the files of each key, and the files without the
      attribute. */
  datatype Buckets = Buckets(keys: seq<string>, groups: map<string, seq<ParsedFile>>, nonMatching: seq<ParsedFile>)

  /** The buckets after visiting `files`, one file at a time: a file without
      a truthy header is skipped, a falsy value goes to the non-matching
      files, a value whose string form is empty is dropped, any other value
      is pushed onto its key's list, the key being created on first use. */
  function Bucket(files: seq<ParsedFile>, name: string): Buckets {
    if files == [] then Buckets([], map[], [])
    else Step(Bucket(files[..|files| - 1], name), files[|files| - 1], name)
  }

  function Step(b: Buckets, f: ParsedFile, name: string): Buckets {
    if !HasHeader(f) then b
    else if !YTruthy(ValueOf(f, name)) then b.(nonMatching := b.nonMatching + [f])
    else
      var v := YToString(ValueOf(f, name));
      if v == "" then b
      else if v in b.groups then b.(groups := b.groups[v := b.groups[v] + [f]])
      else Buckets(b.keys + [v], b.groups[v := [f]], b.nonMatching)
  }

  /** The keys are distinct, they are the keys of the groups, and they are
      the non-empty string forms of the truthy values the files carry. */
  lemma {:induction false} BucketKeys(files: seq<ParsedFile>, name: string)
    ensures var b := Bucket(files, name);
      && Distinct(b.keys)
      && (forall v :: v in b.keys <==> v in b.groups)
      && (forall v :: v in b.keys <==> v != "" && exists f :: f in files && InGroup(name, v, f))
  {
    if files != [] {
      var init, f := files[..|files| - 1], files[|files| - 1];
      BucketKeys(init, name);
      assert files == init + [f];
      var b0, b := Bucket(init, name), Bucket(files, name);
      forall v ensures v in b.keys <==> v != "" && exists g :: g in files && InGroup(name, v, g) {
        if v in b.keys && !(v in b0.keys) {
          assert InGroup(name, v, f);
        }
        if v != "" && (exists g :: g in files && InGroup(name, v, g)) {
          var g :| g in files && InGroup(name, v, g);
          if g != f {
            assert g in init;
          }
        }
      }
    }
  }

  /** Each group holds, in order, the files whose value has its key as
      string form. */
  lemma {:induction false} BucketGroups(files: seq<ParsedFile>, name: string)
    ensures var b := Bucket(files, name);
      forall v :: v in b.groups ==> b.groups[v] == Filter(files, InGroupOf(name, v))
  {
    if files != [] {
      var init, f := files[..|files| - 1], files[|files| - 1];
      BucketGroups(init, name);
      BucketKeys(init, name);
      BucketKeys(files, name);
      assert files == init + [f];
      var b0 := Bucket(init, name);
      assert Bucket(files, name) == Step(b0, f, name);
      forall v | v in Bucket(files, name).groups
        ensures Bucket(files, name).groups[v] == Filter(files, InGroupOf(name, v))
      {
        if v !in b0.groups {
          NoneInGroup(init, name, v);
        }
        StepGroup(b0, init, f, name, v);
      }
    }
  }

  lemma NoneInGroup(files: seq<ParsedFile>, name: string, v: string)
    requires !exists g :: g in files && InGroup(name, v, g)
    ensures Filter(files, InGroupOf(name, v)) == []
  {
  }

  /** One step keeps group `v` equal to the files of that group. */
  lemma StepGroup(b0: Buckets, init: seq<ParsedFile>, f: ParsedFile, name: string, v: string)
    requires v in b0.groups ==> b0.groups[v] == Filter(init, InGroupOf(name, v))
    requires v !in b0.groups ==> Filter(init, InGroupOf(name, v)) == []
    requires v != "" && v in Step(b0, f, name).groups
    ensures Step(b0, f, name).groups[v] == Filter(init + [f], InGroupOf(name, v))
  {
    var p := InGroupOf(name, v);
    FilterAppend(init, [f], p);
    assert Filter([f], p) == if p(f) then [f] else [];
  }

  /** The non-matching files are, in order, those with a truthy header and
      a falsy value. */
  lemma {:induction false} BucketNonMatching(files: seq<ParsedFile>, name: string)
    ensures Bucket(files, name).nonMatching == Filter(files, NonMatchingOn(name))
  {
    if files != [] {
      var init, f := files[..|files| - 1], files[|files| - 1];
      BucketNonMatching(init, name);
      assert files == init + [f];
      var b0 := Bucket(init, name);
      assert Bucket(files, name) == Step(b0, f, name);
      StepNonMatching(b0, init, f, name);
    }
  }

  /** One step keeps the non-matching files equal to those of the files. */
  lemma StepNonMatching(b0: Buckets, init: seq<ParsedFile>, f: ParsedFile, name: string)
    requires b0.nonMatching == Filter(init, NonMatchingOn(name))
    ensures Step(b0, f, name).nonMatching == Filter(init + [f], NonMatchingOn(name))
  {
    var p := NonMatchingOn(name);
    FilterAppend(init, [f], p);
    assert Filter([f], p) == if p(f) then [f] else [];
  }

  /** Order of the group keys: the default `sort()`, by character codes. */
  function KeyOrder(): (string, string) -> bool {
    StrLe
  }

  /** Order of the non-matching files: by name, through `collate`
      (`localeCompare`). */
  function NameKey(collate: string -> int): ParsedFile -> int {
    (f: ParsedFile) => collate(f.fileProperties.name)
  }

  function FileItems(files: seq<ParsedFile>): (r: seq<FileTreeItem>)
    ensures |r| == |files| && forall i :: 0 <= i < |r| ==> r[i] == FileItem(files[i])
  {
    seq(|files|, i requires 0 <= i < |files| => FileItem(files[i]))
  }

  function AttachmentItems(attachments: seq<Attachment>): (r: seq<FileTreeItem>)
    ensures |r| == |attachments| && forall i :: 0 <= i < |r| ==> r[i] == AttachmentItem(attachments[i])
  {
    seq(|attachments|, i requires 0 <= i < |attachments| => AttachmentItem(attachments[i]))
  }

  /** `attachmentsByAttributeValue[value] || []`. */
  function AttachmentsFor(attachments: map<string, seq<Attachment>>, value: string): seq<Attachment> {
    if value in attachments then attachments[value] else []
  }

  /** `getItemsByAttributeRec`: a group per key in key order, then the
      non-matching files by name. */
  function ItemsByAttribute(files: seq<ParsedFile>, names: seq<string>,
                            attachments: map<string, seq<Attachment>>, collate: string -> int): seq<FileTreeItem>
    decreases |names|, 1
  {
    var b := Bucket(files, FirstName(names));
    BucketKeys(files, FirstName(names));
    InsertionSortPermutes(b.keys, KeyOrder());
    var values := InsertionSort(b.keys, KeyOrder());
    assert forall v :: v in values ==> v in b.keys by {
      forall v | v in values ensures v in b.keys {
        assert v in multiset(values);
      }
    }
    GroupItems(values, b.groups, names, attachments, collate)
      + FileItems(InsertionSort(b.nonMatching, ByKey(NameKey(collate))))
  }

  /** The groups for `values`: the files of each, or their grouping by the
      remaining names, then the attachments for the value. */
  function GroupItems(values: seq<string>, groups: map<string, seq<ParsedFile>>, names: seq<string>,
                      attachments: map<string, seq<Attachment>>, collate: string -> int): (r: seq<FileTreeItem>)
    requires forall v :: v in values ==> v in groups
    ensures |r| == |values|
    decreases |names|, 0, |values|
  {
    if values == [] then []
    else
      var v := values[|values| - 1];
      GroupItems(values[..|values| - 1], groups, names, attachments, collate)
        + [GroupItem(FirstName(names), v, GroupChildren(groups[v], names, attachments, collate, v))]
  }

  function GroupChildren(members: seq<ParsedFile>, names: seq<string>,
                         attachments: map<string, seq<Attachment>>, collate: string -> int, value: string): seq<FileTreeItem>
    decreases |names|, 0, 0
  {
    (if |names| <= 1 then FileItems(members) else ItemsByAttribute(members, names[1..], attachments, collate))
      + AttachmentItems(AttachmentsFor(attachments, value))
  }

  lemma {:induction false} GroupItemsAt(values: seq<string>, groups: map<string, seq<ParsedFile>>, names: seq<string>,
                                        attachments: map<string, seq<Attachment>>, collate: string -> int, i: nat)
    requires forall v :: v in values ==> v in groups
    requires i < |values|
    ensures GroupItems(values, groups, names, attachments, collate)[i]
      == GroupItem(FirstName(names), values[i], GroupChildren(groups[values[i]], names, attachments, collate, values[i]))
  {
    if i < |values| - 1 {
      GroupItemsAt(values[..|values| - 1], groups, names, attachments, collate, i);
    }
  }

  /** One level of the grouping: first one group per distinct non-empty
      string form of a truthy value, in key order, each labelled by the
      attribute and the value and holding the files with that value (or
      their grouping by the remaining names) followed by the value's
      attachments; then the files with a falsy or missing value, sorted by
      name and forming a permutation of them. */
  lemma ItemsByAttributeSpec(files: seq<ParsedFile>, names: seq<string>,
                             attachments: map<string, seq<Attachment>>, collate: string -> int)
    ensures var r, name, b := ItemsByAttribute(files, names, attachments, collate), FirstName(names), Bucket(files, FirstName(names));
      var values := InsertionSort(b.keys, KeyOrder());
      var others := InsertionSort(b.nonMatching, ByKey(NameKey(collate)));
      && |r| == |values| + |others|
      && Sorted(values, KeyOrder()) && Distinct(values)
      && (forall v :: v in values <==> v != "" && exists f :: f in files && InGroup(name, v, f))
      && (forall i :: 0 <= i < |values| ==>
            && r[i].GroupItem? && r[i].attributeName == name && r[i].attributeValue == values[i]
            && r[i].children == GroupChildren(Filter(files, InGroupOf(name, values[i])), names, attachments, collate, values[i]))
      && r[|values|..] == FileItems(others)
      && multiset(others) == multiset(Filter(files, NonMatchingOn(name)))
      && Sorted(others, ByKey(NameKey(collate)))
  {
    var name, b := FirstName(names), Bucket(files, FirstName(names));
    BucketKeys(files, name);
    BucketGroups(files, name);
    BucketNonMatching(files, name);
    var values := InsertionSort(b.keys, KeyOrder());
    InsertionSortPermutes(b.keys, KeyOrder());
    assert forall v :: v in values <==> v in b.keys by {
      forall v ensures v in values <==> v in b.keys {
        assert v in values <==> v in multiset(values);
      }
    }
    StrLeOrder();
    InsertionSortSorted(b.keys, KeyOrder());
    DistinctPermutation(b.keys, values);
    InsertionSortPermutes(b.nonMatching, ByKey(NameKey(collate)));
    ByKeyTotal(NameKey(collate));
    InsertionSortSorted(b.nonMatching, ByKey(NameKey(collate)));
    var r := ItemsByAttribute(files, names, attachments, collate);
    forall i | 0 <= i < |values|
      ensures && r[i].GroupItem? && r[i].attributeName == name && r[i].attributeValue == values[i]
              && r[i].children == GroupChildren(Filter(files, InGroupOf(name, values[i])), names, attachments, collate, values[i])
    {
      GroupItemsAt(values, b.groups, names, attachments, collate, i);
    }
  }

  /** The key order is a total preorder. */
  lemma StrLeOrder()
    ensures TotalPreorder(KeyOrder())
  {
    forall a, b ensures StrLe(a, b) || StrLe(b, a) {
      StrLeTotal(a, b);
    }
    forall a, b, c | StrLe(a, b) && StrLe(b, c) ensures StrLe(a, c) {
      StrLeTransitive(a, b, c);
    }
  }

  /** Every file with a truthy header lands in exactly one place of a level:
      among the non-matching files when its value is falsy, otherwise in the
      group of its value's string form (unless that string is empty, and then
      nowhere). */
  lemma FilePlacedOnce(files: seq<ParsedFile>, name: string, f: ParsedFile)
    requires f in files && HasHeader(f)
    ensures var b := Bucket(files, name);
      && (f in b.nonMatching <==> !YTruthy(ValueOf(f, name)))
      && (forall v :: v in b.groups && f in b.groups[v] <==> YTruthy(ValueOf(f, name)) && v == YToString(ValueOf(f, name)) && v != "")
  {
    var b := Bucket(files, name);
    BucketKeys(files, name);
    BucketGroups(files, name);
    BucketNonMatching(files, name);
  }

  /** `getItemsByAttributeRec`, as the source runs it: a `forEach` filling
      the buckets, the sorts, and a `map` over the keys that recurses on the
      remaining names. */
  method GetItemsByAttributeRec(files: seq<ParsedFile>, names: seq<string>,
                                attachments: map<string, seq<Attachment>>, collate: string -> int)
    returns (items: seq<FileTreeItem>)
    ensures items == ItemsByAttribute(files, names, attachments, collate)
    decreases |names|, 1
  {
    var name := if names == [] then "undefined" else names[0];
    var keys, res, nonMatchingFiles := FillBuckets(files, name);
    var others := new ParsedFile[|nonMatchingFiles|](j requires 0 <= j < |nonMatchingFiles| => nonMatchingFiles[j]);
    assert others[..] == nonMatchingFiles;
    SortInPlace(others, ByKey(NameKey(collate)));
    var othersSorted := others[..];
    var sorted := new string[|keys|](j requires 0 <= j < |keys| => keys[j]);
    assert sorted[..] == keys;
    SortInPlace(sorted, KeyOrder());
    var values := sorted[..];
    BucketKeys(files, name);
    InsertionSortPermutes(keys, KeyOrder());
    assert forall v :: v in values ==> v in res by {
      forall v | v in values ensures v in res {
        assert v in multiset(values);
      }
    }
    items := MapGroups(values, res, names, attachments, collate);
    items := items + FileItems(othersSorted);
  }

  /** The `forEach` over the files: the keys in insertion order, the files
      of each key, and the files without the attribute. */
  method FillBuckets(files: seq<ParsedFile>, name: string)
    returns (keys: seq<string>, res: map<string, seq<ParsedFile>>, nonMatchingFiles: seq<ParsedFile>)
    ensures Buckets(keys, res, nonMatchingFiles) == Bucket(files, name)
  {
    keys, res, nonMatchingFiles := [], map[], [];
    for i := 0 to |files|
      invariant Bucket(files[..i], name) == Buckets(keys, res, nonMatchingFiles)
    {
      var file := files[i];
      ghost var before := Buckets(keys, res, nonMatchingFiles);
      assert files[..i + 1][..i] == files[..i];
      if HasHeader(file) {
        var value := ValueOf(file, name);
        if !YTruthy(value) {
          nonMatchingFiles := nonMatchingFiles + [file];
        } else {
          var text := YToString(value);
          if text != "" {
            if text in res {
              res := res[text := res[text] + [file]];
            } else {
              keys := keys + [text];
              res := res[text := [file]];
            }
          }
        }
      }
      assert Buckets(keys, res, nonMatchingFiles) == Step(before, file, name);
    }
    assert files[..|files|] == files;
  }

  /** The `map` over the sorted keys: one group item per key, recursing on
      the remaining names while there are any. */
  method MapGroups(values: seq<string>, res: map<string, seq<ParsedFile>>, names: seq<string>,
                   attachments: map<string, seq<Attachment>>, collate: string -> int)
    returns (items: seq<FileTreeItem>)
    requires forall v :: v in values ==> v in res
    ensures items == GroupItems(values, res, names, attachments, collate)
    decreases |names|, 0
  {
    var name := if names == [] then "undefined" else names[0];
    items := [];
    for j := 0 to |values|
      invariant items == GroupItems(values[..j], res, names, attachments, collate)
    {
      var v := values[j];
      var children;
      if |names| <= 1 {
        children := FileItems(res[v]);
      } else {
        children := GetItemsByAttributeRec(res[v], names[1..], attachments, collate);
      }
      children := children + AttachmentItems(AttachmentsFor(attachments, v));
      assert values[..j + 1][..j] == values[..j];
      items := items + [GroupItem(name, v, children)];
    }
    assert values[..|values|] == values;
  }
}
