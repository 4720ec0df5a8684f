/** The menu schema: which parsed JSON values are acceptable menus, the typed
    menu an accepted value turns into, and the list of issues a rejected value
    is reported with.

    The rules are declared once as predicates (`MenuAccepted`, `ItemAccepted`,
    `OptionAccepted`); the validator itself works the way the schema library
    does, walking the declared keys in order and collecting one issue per
    violated rule, and the lemmas below tie the two together. */
module Schema {
  import opened JsValues

  // ---------------------------------------------------------------------------
  // The validated menu
  // ---------------------------------------------------------------------------

  /** A price is either a JSON number or free text such as "Rs 120". */
  datatype Price = NumberPrice(amount: real) | TextPrice(text: string)

  /** A variant of an item, e.g. a size. */
  datatype MenuOption = MenuOption(labelText: string, price: Option<Price>)

  datatype MenuItem = MenuItem(
    name: string,
    category: Option<string>,
    description: Option<string>,
    price: Option<Price>,
    options: Option<seq<MenuOption>>)

  datatype Menu = Menu(vendor: Option<string>, currency: Option<string>, items: seq<MenuItem>)

  /** The shortest `items` array the schema accepts. */
  const MinItems: nat := 1

  /** The shortest item name the schema accepts. */
  const MinNameLength: nat := 1

  /** What every validated menu satisfies: at least one item, and every item
      has a non-empty name. */
  predicate WellFormed(m: Menu) {
    && |m.items| >= MinItems
    && forall i :: 0 <= i < |m.items| ==> |m.items[i].name| >= MinNameLength
  }

  // ---------------------------------------------------------------------------
  // The acceptance rules, declaratively
  // ---------------------------------------------------------------------------

  /** `z.union([z.number(), z.string()])` */
  predicate IsPriceValue(v: Json) {
    v.JNum? || v.JStr?
  }

  /** `z.string().optional()` for field `key`. */
  predicate OptionalString(fields: map<string, Json>, key: string) {
    key in fields ==> fields[key].JStr?
  }

  /** `z.union([z.number(), z.string()]).optional()` for field `key`. */
  predicate OptionalPrice(fields: map<string, Json>, key: string) {
    key in fields ==> IsPriceValue(fields[key])
  }

  /** An element of `options`: an object with a string `label` (empty allowed)
      and an optional number-or-string `price`. */
  predicate OptionAccepted(v: Json) {
    && v.JObj?
    && "label" in v.fields && v.fields["label"].JStr?
    && OptionalPrice(v.fields, "price")
  }

  /** An element of `items`. */
  predicate ItemAccepted(v: Json) {
    && v.JObj?
    && "name" in v.fields && v.fields["name"].JStr? && |v.fields["name"].s| >= MinNameLength
    && OptionalString(v.fields, "category")
    && OptionalString(v.fields, "description")
    && OptionalPrice(v.fields, "price")
    && ("options" in v.fields ==>
          && v.fields["options"].JArr?
          && forall j :: 0 <= j < |v.fields["options"].elems| ==> OptionAccepted(v.fields["options"].elems[j]))
  }

  /** A whole menu. */
  predicate MenuAccepted(v: Json) {
    && v.JObj?
    && OptionalString(v.fields, "vendor")
    && OptionalString(v.fields, "currency")
    && "items" in v.fields && v.fields["items"].JArr?
    && |v.fields["items"].elems| >= MinItems
    && forall i :: 0 <= i < |v.fields["items"].elems| ==> ItemAccepted(v.fields["items"].elems[i])
  }

  // ---------------------------------------------------------------------------
  // Issues
  // ---------------------------------------------------------------------------

  /** A step of an issue path: an object key or an array index. */
  datatype Segment = Key(key: string) | Index(index: nat)

  /** Why a value was refused: a required key is absent, a value has the wrong
      JSON kind, a string or array is shorter than its minimum, or a value
      matches none of the members of a union. */
  datatype Reason = Required | InvalidType | TooSmall | InvalidUnion

  datatype Issue = Issue(path: seq<Segment>, reason: Reason)

  /** Re-roots issues one level down, under `seg`. */
  function At(seg: Segment, issues: seq<Issue>): seq<Issue> {
    seq(|issues|, k requires 0 <= k < |issues| => Issue([seg] + issues[k].path, issues[k].reason))
  }

  /** A string field; `required` and `minLength` say how `z.string()` was refined. */
  function StringFieldIssues(fields: map<string, Json>, key: string, required: bool, minLength: nat): seq<Issue> {
    if key !in fields then
      if required then [Issue([Key(key)], Required)] else []
    else
      match fields[key]
      case JStr(s) => if |s| < minLength then [Issue([Key(key)], TooSmall)] else []
      case _ => [Issue([Key(key)], InvalidType)]
  }

  /** An optional number-or-string field. */
  function PriceFieldIssues(fields: map<string, Json>, key: string): seq<Issue> {
    if key in fields && !IsPriceValue(fields[key]) then [Issue([Key(key)], InvalidUnion)] else []
  }

  /** The issues of `es[from..]`, each under its index, in index order. */
  function EachIssues(es: seq<Json>, check: Json -> seq<Issue>, from: nat): seq<Issue>
    requires from <= |es|
    decreases |es| - from
  {
    if from == |es| then [] else At(Index(from), check(es[from])) + EachIssues(es, check, from + 1)
  }

  function OptionIssues(v: Json): seq<Issue> {
    match v
    case JObj(fs) => StringFieldIssues(fs, "label", true, 0) + PriceFieldIssues(fs, "price")
    case _ => [Issue([], InvalidType)]
  }

  /** The optional `options` array. */
  function OptionsFieldIssues(fields: map<string, Json>, key: string): seq<Issue> {
    if key !in fields then []
    else
      match fields[key]
      case JArr(es) => At(Key(key), EachIssues(es, OptionIssues, 0))
      case _ => [Issue([Key(key)], InvalidType)]
  }

  function ItemIssues(v: Json): seq<Issue> {
    match v
    case JObj(fs) =>
      StringFieldIssues(fs, "name", true, MinNameLength)
      + StringFieldIssues(fs, "category", false, 0)
      + StringFieldIssues(fs, "description", false, 0)
      + PriceFieldIssues(fs, "price")
      + OptionsFieldIssues(fs, "options")
    case _ => [Issue([], InvalidType)]
  }

  /** The required `items` array: the minimum-length issue comes before the
      issues of the elements. */
  function ItemsFieldIssues(fields: map<string, Json>, key: string): seq<Issue> {
    if key !in fields then [Issue([Key(key)], Required)]
    else
      match fields[key]
      case JArr(es) =>
        (if |es| < MinItems then [Issue([Key(key)], TooSmall)] else [])
        + At(Key(key), EachIssues(es, ItemIssues, 0))
      case _ => [Issue([Key(key)], InvalidType)]
  }

  /** Every issue of a candidate menu, in the order the schema checks them. */
  function MenuIssues(v: Json): seq<Issue> {
    match v
    case JObj(fs) =>
      StringFieldIssues(fs, "vendor", false, 0)
      + StringFieldIssues(fs, "currency", false, 0)
      + ItemsFieldIssues(fs, "items")
    case _ => [Issue([], InvalidType)]
  }

  // ---------------------------------------------------------------------------
  // Decoding an accepted value (unknown keys are dropped)
  // ---------------------------------------------------------------------------

  function DecodePrice(v: Json): Price
    requires IsPriceValue(v)
  {
    if v.JNum? then NumberPrice(v.n) else TextPrice(v.s)
  }

  function OptionalText(fields: map<string, Json>, key: string): Option<string>
    requires OptionalString(fields, key)
  {
    if key in fields then Some(fields[key].s) else None
  }

  function OptionalPriceOf(fields: map<string, Json>, key: string): Option<Price>
    requires OptionalPrice(fields, key)
  {
    if key in fields then Some(DecodePrice(fields[key])) else None
  }

  function DecodeOption(v: Json): MenuOption
    requires OptionAccepted(v)
  {
    MenuOption(v.fields["label"].s, OptionalPriceOf(v.fields, "price"))
  }

  function DecodeItem(v: Json): MenuItem
    requires ItemAccepted(v)
  {
    var fs := v.fields;
    MenuItem(
      fs["name"].s,
      OptionalText(fs, "category"),
      OptionalText(fs, "description"),
      OptionalPriceOf(fs, "price"),
      if "options" in fs then
        Some(seq(|fs["options"].elems|, j requires 0 <= j < |fs["options"].elems| => DecodeOption(fs["options"].elems[j])))
      else None)
  }

  /** An accepted value decodes to a well-formed menu with the input's items,
      in order, each named as in the input. */
  function DecodeMenu(v: Json): (m: Menu)
    requires MenuAccepted(v)
    ensures WellFormed(m)
    ensures |m.items| == |v.fields["items"].elems|
    ensures forall i :: 0 <= i < |m.items| ==> m.items[i].name == v.fields["items"].elems[i].fields["name"].s
  {
    var es := v.fields["items"].elems;
    Menu(
      OptionalText(v.fields, "vendor"),
      OptionalText(v.fields, "currency"),
      seq(|es|, i requires 0 <= i < |es| => DecodeItem(es[i])))
  }

  // ---------------------------------------------------------------------------
  // Locating issues in the input
  // ---------------------------------------------------------------------------

  function Step(v: Json, seg: Segment): Option<Json> {
    match seg
    case Key(k) => if v.JObj? && k in v.fields then Some(v.fields[k]) else None
    case Index(i) => if v.JArr? && i < |v.elems| then Some(v.elems[i]) else None
  }

  /** The value reached from `v` by following `path`, if any. */
  function Resolve(v: Json, path: seq<Segment>): Option<Json>
    decreases |path|
  {
    if |path| == 0 then Some(v)
    else
      match Step(v, path[0])
      case None => None
      case Some(w) => Resolve(w, path[1..])
  }

  /** The issue points at a place in `v`: a missing key sits in an existing
      object, and every other issue names a value that is present. */
  predicate Locates(v: Json, issue: Issue) {
    if issue.reason == Required then
      && |issue.path| > 0
      && Resolve(v, issue.path[..|issue.path| - 1]).Some?
      && Resolve(v, issue.path[..|issue.path| - 1]).value.JObj?
      && issue.path[|issue.path| - 1].Key?
      && Resolve(v, issue.path).None?
    else
      Resolve(v, issue.path).Some?
  }

  predicate AllLocated(v: Json, issues: seq<Issue>) {
    forall k :: 0 <= k < |issues| ==> Locates(v, issues[k])
  }

  // ---------------------------------------------------------------------------
  // The validator
  // ---------------------------------------------------------------------------

  /** `MenuSchema.safeParse`: the typed menu, or every issue found. An accepted
      menu keeps its items in the input's length and order; a rejected one is
      reported with at least one issue, each pointing into the input. */
  function Validate(v: Json): (r: Result<Menu, seq<Issue>>)
    ensures r.Success? <==> MenuAccepted(v)
    ensures r.Failure? ==> |r.error| > 0 && AllLocated(v, r.error)
    ensures r.Success? ==> WellFormed(r.value)
    ensures r.Success? ==>
      && |r.value.items| == |v.fields["items"].elems|
      && forall i :: 0 <= i < |r.value.items| ==> r.value.items[i].name == v.fields["items"].elems[i].fields["name"].s
    ensures r.Success? ==> MenuToJson(r.value) == StripMenu(v)
  {
    MenuIssuesEmpty(v);
    var issues := MenuIssues(v);
    if issues == [] then
      MenuDecodeEncode(v);
      Success(DecodeMenu(v))
    else
      MenuIssuesLocated(v);
      Failure(issues)
  }

  // ---------------------------------------------------------------------------
  // The issue collector agrees with the declarative rules
  // ---------------------------------------------------------------------------

  lemma {:induction false} EachIssuesEmpty(es: seq<Json>, check: Json -> seq<Issue>, from: nat)
    requires from <= |es|
    ensures EachIssues(es, check, from) == [] <==> forall i :: from <= i < |es| ==> check(es[i]) == []
    decreases |es| - from
  {
    if from < |es| {
      EachIssuesEmpty(es, check, from + 1);
    }
  }

  lemma OptionIssuesEmpty(v: Json)
    ensures OptionIssues(v) == [] <==> OptionAccepted(v)
  {
  }

  lemma ItemIssuesEmpty(v: Json)
    ensures ItemIssues(v) == [] <==> ItemAccepted(v)
  {
    if v.JObj? && "options" in v.fields && v.fields["options"].JArr? {
      var es := v.fields["options"].elems;
      EachIssuesEmpty(es, OptionIssues, 0);
      forall j | 0 <= j < |es| {
        OptionIssuesEmpty(es[j]);
      }
    }
  }

  /** A candidate menu draws no issue exactly when the rules accept it. */
  lemma MenuIssuesEmpty(v: Json)
    ensures MenuIssues(v) == [] <==> MenuAccepted(v)
  {
    if v.JObj? && "items" in v.fields && v.fields["items"].JArr? {
      var es := v.fields["items"].elems;
      EachIssuesEmpty(es, ItemIssues, 0);
      forall i | 0 <= i < |es| {
        ItemIssuesEmpty(es[i]);
      }
    }
  }

  // ---------------------------------------------------------------------------
  // Every issue points into the input
  // ---------------------------------------------------------------------------

  lemma LocatedAppend(v: Json, a: seq<Issue>, b: seq<Issue>)
    requires AllLocated(v, a) && AllLocated(v, b)
    ensures AllLocated(v, a + b)
  {
    forall k | 0 <= k < |a + b| ensures Locates(v, (a + b)[k]) {
      if k < |a| { assert (a + b)[k] == a[k]; } else { assert (a + b)[k] == b[k - |a|]; }
    }
  }

  lemma LocatesBelow(v: Json, seg: Segment, w: Json, issue: Issue)
    requires Step(v, seg) == Some(w)
    requires Locates(w, issue)
    ensures Locates(v, Issue([seg] + issue.path, issue.reason))
  {
    var p := [seg] + issue.path;
    assert p[0] == seg && p[1..] == issue.path;
    if |issue.path| > 0 {
      var q := p[..|p| - 1];
      assert q[0] == seg && q[1..] == issue.path[..|issue.path| - 1];
    }
  }

  lemma AtLocated(v: Json, seg: Segment, w: Json, issues: seq<Issue>)
    requires Step(v, seg) == Some(w)
    requires AllLocated(w, issues)
    ensures AllLocated(v, At(seg, issues))
  {
    forall k | 0 <= k < |issues| ensures Locates(v, At(seg, issues)[k]) {
      LocatesBelow(v, seg, w, issues[k]);
    }
  }

  lemma {:induction false} EachLocated(es: seq<Json>, check: Json -> seq<Issue>, from: nat)
    requires from <= |es|
    requires forall i :: 0 <= i < |es| ==> AllLocated(es[i], check(es[i]))
    ensures AllLocated(JArr(es), EachIssues(es, check, from))
    decreases |es| - from
  {
    if from < |es| {
      AtLocated(JArr(es), Index(from), es[from], check(es[from]));
      EachLocated(es, check, from + 1);
      LocatedAppend(JArr(es), At(Index(from), check(es[from])), EachIssues(es, check, from + 1));
    }
  }

  /** A one-key path resolves exactly when the key is present. */
  lemma ResolveKey(v: Json, key: string)
    requires v.JObj?
    ensures Resolve(v, [Key(key)]) == (if key in v.fields then Some(v.fields[key]) else None)
    ensures Resolve(v, [Key(key)][..0]) == Some(v)
  {
    assert [Key(key)][1..] == [];
    assert [Key(key)][..0] == [];
  }

  lemma StringFieldLocated(v: Json, key: string, required: bool, minLength: nat)
    requires v.JObj?
    ensures AllLocated(v, StringFieldIssues(v.fields, key, required, minLength))
  {
    ResolveKey(v, key);
  }

  lemma PriceFieldLocated(v: Json, key: string)
    requires v.JObj?
    ensures AllLocated(v, PriceFieldIssues(v.fields, key))
  {
    ResolveKey(v, key);
  }

  lemma OptionLocated(v: Json)
    ensures AllLocated(v, OptionIssues(v))
  {
    if v.JObj? {
      StringFieldLocated(v, "label", true, 0);
      PriceFieldLocated(v, "price");
      LocatedAppend(v, StringFieldIssues(v.fields, "label", true, 0), PriceFieldIssues(v.fields, "price"));
    }
  }

  lemma ItemLocated(v: Json)
    ensures AllLocated(v, ItemIssues(v))
  {
    if v.JObj? {
      var fs := v.fields;
      StringFieldLocated(v, "name", true, MinNameLength);
      StringFieldLocated(v, "category", false, 0);
      StringFieldLocated(v, "description", false, 0);
      PriceFieldLocated(v, "price");
      if "options" in fs {
        ResolveKey(v, "options");
        if fs["options"].JArr? {
          var es := fs["options"].elems;
          forall j | 0 <= j < |es| ensures AllLocated(es[j], OptionIssues(es[j])) {
            OptionLocated(es[j]);
          }
          EachLocated(es, OptionIssues, 0);
          AtLocated(v, Key("options"), JArr(es), EachIssues(es, OptionIssues, 0));
        }
      }
      var a := StringFieldIssues(fs, "name", true, MinNameLength);
      var b := StringFieldIssues(fs, "category", false, 0);
      var c := StringFieldIssues(fs, "description", false, 0);
      var d := PriceFieldIssues(fs, "price");
      var e := OptionsFieldIssues(fs, "options");
      LocatedAppend(v, a, b);
      LocatedAppend(v, a + b, c);
      LocatedAppend(v, a + b + c, d);
      LocatedAppend(v, a + b + c + d, e);
    }
  }

  lemma MenuIssuesLocated(v: Json)
    ensures AllLocated(v, MenuIssues(v))
  {
    if v.JObj? {
      var fs := v.fields;
      StringFieldLocated(v, "vendor", false, 0);
      StringFieldLocated(v, "currency", false, 0);
      ResolveKey(v, "items");
      if "items" in fs && fs["items"].JArr? {
        var es := fs["items"].elems;
        forall i | 0 <= i < |es| ensures AllLocated(es[i], ItemIssues(es[i])) {
          ItemLocated(es[i]);
        }
        EachLocated(es, ItemIssues, 0);
        AtLocated(v, Key("items"), JArr(es), EachIssues(es, ItemIssues, 0));
        LocatedAppend(v, if |es| < MinItems then [Issue([Key("items")], TooSmall)] else [],
                      At(Key("items"), EachIssues(es, ItemIssues, 0)));
      }
      var a := StringFieldIssues(fs, "vendor", false, 0);
      var b := StringFieldIssues(fs, "currency", false, 0);
      LocatedAppend(v, a, b);
      LocatedAppend(v, a + b, ItemsFieldIssues(fs, "items"));
    }
  }

  // ---------------------------------------------------------------------------
  // Particular rules and the issues they draw
  // ---------------------------------------------------------------------------

  /** An issue of element `i` appears, under index `i`, among the issues of
      the whole array, at position `k`. */
  lemma {:induction false} EachIssuesHas(es: seq<Json>, check: Json -> seq<Issue>, from: nat, i: nat, issue: Issue)
    returns (k: nat)
    requires from <= i < |es|
    requires issue in check(es[i])
    ensures k < |EachIssues(es, check, from)|
    ensures EachIssues(es, check, from)[k] == Issue([Index(i)] + issue.path, issue.reason)
    decreases i - from
  {
    var here := At(Index(from), check(es[from]));
    if from == i {
      var j :| 0 <= j < |check(es[i])| && check(es[i])[j] == issue;
      assert here[j] == Issue([Index(i)] + issue.path, issue.reason);
      k := j;
    } else {
      var rest := EachIssuesHas(es, check, from + 1, i, issue);
      k := |here| + rest;
    }
  }

  lemma ItemIssueInItemsField(es: seq<Json>, i: nat, issue: Issue) returns (k: nat)
    requires i < |es|
    requires issue in ItemIssues(es[i])
    ensures k < |ItemsFieldIssues(map["items" := JArr(es)], "items")|
    ensures ItemsFieldIssues(map["items" := JArr(es)], "items")[k] == Issue([Key("items"), Index(i)] + issue.path, issue.reason)
  {
    var inner := EachIssues(es, ItemIssues, 0);
    var deep := Issue([Index(i)] + issue.path, issue.reason);
    var j := EachIssuesHas(es, ItemIssues, 0, i, issue);
    var outer := At(Key("items"), inner);
    assert [Key("items")] + deep.path == [Key("items"), Index(i)] + issue.path;
    assert outer[j] == Issue([Key("items"), Index(i)] + issue.path, issue.reason);
    var head: seq<Issue> := if |es| < MinItems then [Issue([Key("items")], TooSmall)] else [];
    assert ItemsFieldIssues(map["items" := JArr(es)], "items") == head + outer;
    k := |head| + j;
  }

  /** An issue of item `i` is reported for the menu under `items`, index `i`:
      a single bad item rejects the whole menu. */
  lemma ItemIssueReported(v: Json, i: nat, issue: Issue)
    requires v.JObj? && "items" in v.fields && v.fields["items"].JArr?
    requires i < |v.fields["items"].elems|
    requires issue in ItemIssues(v.fields["items"].elems[i])
    ensures Issue([Key("items"), Index(i)] + issue.path, issue.reason) in MenuIssues(v)
    ensures Validate(v).Failure?
  {
    var fs := v.fields;
    var target := Issue([Key("items"), Index(i)] + issue.path, issue.reason);
    var k := ItemIssueInItemsField(fs["items"].elems, i, issue);
    assert ItemsFieldIssues(fs, "items") == ItemsFieldIssues(map["items" := fs["items"]], "items");
    var front := StringFieldIssues(fs, "vendor", false, 0) + StringFieldIssues(fs, "currency", false, 0);
    assert MenuIssues(v) == front + ItemsFieldIssues(fs, "items");
    assert MenuIssues(v)[|front| + k] == target;
    MenuIssuesEmpty(v);
  }

  /** An item whose `name` is the empty string, or is present but not a
      string, or is missing, is refused with an issue at its `name`. */
  lemma BadNameReported(v: Json, i: nat)
    requires v.JObj? && "items" in v.fields && v.fields["items"].JArr?
    requires i < |v.fields["items"].elems|
    requires v.fields["items"].elems[i].JObj?
    ensures var item := v.fields["items"].elems[i].fields;
      && ("name" !in item ==> Issue([Key("items"), Index(i), Key("name")], Required) in MenuIssues(v))
      && ("name" in item && item["name"] == JStr("") ==>
            Issue([Key("items"), Index(i), Key("name")], TooSmall) in MenuIssues(v))
      && ("name" in item && !item["name"].JStr? ==>
            Issue([Key("items"), Index(i), Key("name")], InvalidType) in MenuIssues(v))
  {
    var w := v.fields["items"].elems[i];
    var fs := w.fields;
    var issues := ItemIssues(w);
    assert [Key("items"), Index(i)] + [Key("name")] == [Key("items"), Index(i), Key("name")];
    if "name" !in fs {
      assert issues[0] == Issue([Key("name")], Required);
      ItemIssueReported(v, i, issues[0]);
    } else if fs["name"] == JStr("") {
      assert issues[0] == Issue([Key("name")], TooSmall);
      ItemIssueReported(v, i, issues[0]);
    } else if !fs["name"].JStr? {
      assert issues[0] == Issue([Key("name")], InvalidType);
      ItemIssueReported(v, i, issues[0]);
    }
  }

  /** An empty `items` array is refused with an issue at `items`, whatever
      `vendor` and `currency` are. */
  lemma EmptyItemsReported(v: Json)
    requires v.JObj? && "items" in v.fields && v.fields["items"] == JArr([])
    ensures Issue([Key("items")], TooSmall) in MenuIssues(v)
    ensures Validate(v).Failure?
  {
    var a := StringFieldIssues(v.fields, "vendor", false, 0) + StringFieldIssues(v.fields, "currency", false, 0);
    assert ItemsFieldIssues(v.fields, "items")[0] == Issue([Key("items")], TooSmall);
    assert MenuIssues(v)[|a|] == Issue([Key("items")], TooSmall);
  }

  // ---------------------------------------------------------------------------
  // Encoding a menu back to JSON
  // ---------------------------------------------------------------------------

  function PriceToJson(p: Price): Json {
    match p
    case NumberPrice(n) => JNum(n)
    case TextPrice(t) => JStr(t)
  }

  /** Adds `key` when there is a value for it; absent fields are omitted. */
  function WithField(fields: map<string, Json>, key: string, value: Option<Json>): map<string, Json> {
    match value
    case Some(x) => fields[key := x]
    case None => fields
  }

  function TextJson(t: Option<string>): Option<Json> {
    match t
    case Some(x) => Some(JStr(x))
    case None => None
  }

  function PriceJson(p: Option<Price>): Option<Json> {
    match p
    case Some(x) => Some(PriceToJson(x))
    case None => None
  }

  function OptionToJson(o: MenuOption): Json {
    JObj(WithField(map["label" := JStr(o.labelText)], "price", PriceJson(o.price)))
  }

  function OptionsJson(os: Option<seq<MenuOption>>): Option<Json> {
    match os
    case Some(xs) => Some(JArr(seq(|xs|, j requires 0 <= j < |xs| => OptionToJson(xs[j]))))
    case None => None
  }

  function ItemToJson(it: MenuItem): Json {
    var fs := map["name" := JStr(it.name)];
    var fs := WithField(fs, "category", TextJson(it.category));
    var fs := WithField(fs, "description", TextJson(it.description));
    var fs := WithField(fs, "price", PriceJson(it.price));
    JObj(WithField(fs, "options", OptionsJson(it.options)))
  }

  /** The JSON the handler sends back (and stores) for a validated menu. */
  function MenuToJson(m: Menu): Json {
    var fs := map["items" := JArr(seq(|m.items|, i requires 0 <= i < |m.items| => ItemToJson(m.items[i])))];
    var fs := WithField(fs, "vendor", TextJson(m.vendor));
    JObj(WithField(fs, "currency", TextJson(m.currency)))
  }

  lemma OptionRoundTrip(o: MenuOption)
    ensures OptionAccepted(OptionToJson(o))
    ensures DecodeOption(OptionToJson(o)) == o
  {
  }

  lemma ItemRoundTrip(it: MenuItem)
    requires |it.name| >= MinNameLength
    ensures ItemAccepted(ItemToJson(it))
    ensures DecodeItem(ItemToJson(it)) == it
  {
    var v := ItemToJson(it);
    assert v.fields["name"] == JStr(it.name);
    if it.options.Some? {
      var xs := it.options.value;
      var es := v.fields["options"].elems;
      assert |es| == |xs|;
      forall j | 0 <= j < |xs| ensures OptionAccepted(es[j]) && DecodeOption(es[j]) == xs[j] {
        OptionRoundTrip(xs[j]);
      }
      assert DecodeItem(v).options.value == xs;
    }
  }

  /** Every well-formed menu survives being written out as JSON and validated
      again, and validation only ever yields well-formed menus: the schema
      accepts exactly the menus it can produce. */
  lemma MenuRoundTrip(m: Menu)
    requires WellFormed(m)
    ensures Validate(MenuToJson(m)) == Success(m)
  {
    var v := MenuToJson(m);
    var es := v.fields["items"].elems;
    assert |es| == |m.items|;
    forall i | 0 <= i < |m.items| ensures ItemAccepted(es[i]) && DecodeItem(es[i]) == m.items[i] {
      ItemRoundTrip(m.items[i]);
    }
    assert MenuAccepted(v);
    assert DecodeMenu(v).items == m.items;
  }

  // ---------------------------------------------------------------------------
  // Decoding keeps exactly the declared keys
  // ---------------------------------------------------------------------------

  const OptionKeys: set<string> := {"label", "price"}
  const ItemKeys: set<string> := {"name", "category", "description", "price", "options"}
  const MenuKeys: set<string> := {"vendor", "currency", "items"}

  /** The fields of `fields` whose key is one of `keys`, each transformed by `f`. */
  function Keep(fields: map<string, Json>, keys: set<string>, f: (string, Json) -> Json): map<string, Json> {
    map k | k in fields && k in keys :: f(k, fields[k])
  }

  /** An object with every key the option schema does not declare removed. */
  function StripOption(v: Json): Json {
    match v
    case JObj(fs) => JObj(Keep(fs, OptionKeys, (k, x) => x))
    case _ => v
  }

  function StripItemField(k: string, x: Json): Json {
    if k == "options" && x.JArr? then
      JArr(seq(|x.elems|, j requires 0 <= j < |x.elems| => StripOption(x.elems[j])))
    else x
  }

  /** An item with undeclared keys removed, its options stripped too. */
  function StripItem(v: Json): Json {
    match v
    case JObj(fs) => JObj(Keep(fs, ItemKeys, StripItemField))
    case _ => v
  }

  function StripMenuField(k: string, x: Json): Json {
    if k == "items" && x.JArr? then
      JArr(seq(|x.elems|, i requires 0 <= i < |x.elems| => StripItem(x.elems[i])))
    else x
  }

  /** A menu with every undeclared key removed, at every level. */
  function StripMenu(v: Json): Json {
    match v
    case JObj(fs) => JObj(Keep(fs, MenuKeys, StripMenuField))
    case _ => v
  }

  lemma PriceDecodeEncode(v: Json)
    requires IsPriceValue(v)
    ensures PriceToJson(DecodePrice(v)) == v
  {
  }

  /** Decoding an accepted option and writing it out again gives the input
      without its undeclared keys. */
  lemma OptionDecodeEncode(v: Json)
    requires OptionAccepted(v)
    ensures OptionToJson(DecodeOption(v)) == StripOption(v)
  {
    var fs := v.fields;
    var out := OptionToJson(DecodeOption(v)).fields;
    var kept := StripOption(v).fields;
    if "price" in fs {
      PriceDecodeEncode(fs["price"]);
    }
    assert out.Keys == kept.Keys;
    assert forall k :: k in out ==> out[k] == kept[k];
  }

  lemma OptionsDecodeEncode(x: Json, os: seq<MenuOption>)
    requires x.JArr? && |os| == |x.elems|
    requires forall j :: 0 <= j < |x.elems| ==> OptionAccepted(x.elems[j]) && os[j] == DecodeOption(x.elems[j])
    ensures OptionsJson(Some(os)) == Some(StripItemField("options", x))
  {
    var a := OptionsJson(Some(os)).value.elems;
    var b := StripItemField("options", x).elems;
    forall j | 0 <= j < |a| ensures a[j] == b[j] {
      OptionDecodeEncode(x.elems[j]);
    }
    assert a == b;
  }

  /** The same for an accepted item, its options included. */
  lemma ItemDecodeEncode(v: Json)
    requires ItemAccepted(v)
    ensures ItemToJson(DecodeItem(v)) == StripItem(v)
  {
    var fs := v.fields;
    var out := ItemToJson(DecodeItem(v)).fields;
    var kept := StripItem(v).fields;
    if "price" in fs {
      PriceDecodeEncode(fs["price"]);
    }
    if "options" in fs {
      OptionsDecodeEncode(fs["options"], DecodeItem(v).options.value);
    }
    assert out.Keys == kept.Keys;
    assert forall k :: k in out ==> out[k] == kept[k];
  }

  lemma ItemsDecodeEncode(x: Json, items: seq<MenuItem>)
    requires x.JArr? && |items| == |x.elems|
    requires forall i :: 0 <= i < |x.elems| ==> ItemAccepted(x.elems[i]) && items[i] == DecodeItem(x.elems[i])
    ensures JArr(seq(|items|, i requires 0 <= i < |items| => ItemToJson(items[i]))) == StripMenuField("items", x)
  {
    var a := seq(|items|, i requires 0 <= i < |items| => ItemToJson(items[i]));
    var b := StripMenuField("items", x).elems;
    forall i | 0 <= i < |a| ensures a[i] == b[i] {
      ItemDecodeEncode(x.elems[i]);
    }
    assert a == b;
  }

  /** Decoding an accepted menu and writing it out again gives the input
      with every undeclared key removed, at every level: nothing the schema
      declares is lost or altered, and nothing else is kept. */
  lemma {:induction false} MenuDecodeEncode(v: Json)
    requires MenuAccepted(v)
    ensures MenuToJson(DecodeMenu(v)) == StripMenu(v)
  {
    var fs := v.fields;
    var out := MenuToJson(DecodeMenu(v)).fields;
    var kept := StripMenu(v).fields;
    ItemsDecodeEncode(fs["items"], DecodeMenu(v).items);
    assert out.Keys == kept.Keys;
    assert forall k :: k in out ==> out[k] == kept[k];
  }
}
