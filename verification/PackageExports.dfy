/** Conditional `exports` targets and single-star patterns of package resolution. */
module PackageExports {
  import opened Words

  /** A target of an exports field; `Other` is anything that is neither text nor a plain object. */
  datatype Target = Text(s: string) | Object(fields: seq<Field>) | Other

  /** The properties of an object in their order. */
  datatype Field = Field(key: string, value: Target)

  type Conditions = set<string>

  // ---------- reading properties ----------

  /** Where a property is, or -1. */
  function IndexOf(fields: seq<Field>, key: string): (i: int)
    ensures -1 <= i < |fields| && (i >= 0 ==> fields[i].key == key)
    ensures i < 0 ==> forall j :: 0 <= j < |fields| ==> fields[j].key != key
  {
    if fields == [] then -1
    else if fields[0].key == key then 0
    else
      var i := IndexOf(fields[1..], key);
      if i < 0 then -1 else i + 1
  }

  function KeysOf(fields: seq<Field>): (ks: seq<string>)
    ensures |ks| == |fields| && forall i :: 0 <= i < |ks| ==> ks[i] == fields[i].key
  {
    if fields == [] then [] else [fields[0].key] + KeysOf(fields[1..])
  }

  // ---------- the choice ----------

  const IMPORT_FIRST: seq<string> := ["import", "require", "default"]
  const REQUIRE_FIRST: seq<string> := ["require", "import", "default"]

  function Order(cond: Conditions): seq<string> {
    if "import" in cond then IMPORT_FIRST else REQUIRE_FIRST
  }

  function IfActive(key: string, cond: Conditions): seq<string> {
    if key in cond then [key] else []
  }

  /** The keys of the last loop. */
  predicate Remaining(k: string) {
    k !in {"types", "node", "development", "production", "import", "require", "default"}
  }

  function Filtered(ks: seq<string>): seq<string> {
    if ks == [] then [] else (if Remaining(ks[0]) then [ks[0]] else []) + Filtered(ks[1..])
  }

  /** All keys in the order the code looks at them. */
  function Tried(fields: seq<Field>, cond: Conditions): seq<string> {
    IfActive("node", cond) + IfActive("development", cond) + IfActive("production", cond)
    + Order(cond) + ["default"] + Filtered(KeysOf(fields))
  }

  function PickConditionalTarget(target: Target, cond: Conditions): Option<string>
    decreases target
  {
    match target
    case Text(s) => Some(s)
    case Other => None
    case Object(fields) => PickFirst(target, Tried(fields, cond), cond)
  }

  /** The first of the keys whose property gives a non-empty text. */
  function PickFirst(target: Target, keys: seq<string>, cond: Conditions): Option<string>
    requires target.Object?
    decreases target, |keys|
  {
    if keys == [] then None
    else
      var i := IndexOf(target.fields, keys[0]);
      var got := if i < 0 then None else PickConditionalTarget(target.fields[i].value, cond);
      if got.Some? && got.value != "" then got else PickFirst(target, keys[1..], cond)
  }

  // ---------- what it means ----------

  /** Which properties may be entered. */
  predicate Active(k: string, cond: Conditions) {
    k != "types" && (k in {"node", "development", "production"} ==> k in cond)
  }

  /** `s` is a non-empty leaf reached by entering active properties only. */
  predicate Reaches(target: Target, cond: Conditions, s: string)
    decreases target
  {
    match target
    case Text(t) => s == t && s != ""
    case Other => false
    case Object(fields) =>
      exists i :: 0 <= i < |fields| && IndexOf(fields, fields[i].key) == i
                  && Active(fields[i].key, cond) && Reaches(fields[i].value, cond, s)
  }

  lemma {:induction false} FilteredMembers(ks: seq<string>, k: string)
    ensures k in Filtered(ks) <==> k in ks && Remaining(k)
  {
    if ks != [] {
      FilteredMembers(ks[1..], k);
      assert ks == [ks[0]] + ks[1..];
    }
  }

  /** The keys tried that the object has are its active ones. */
  lemma TriedIsActive(fields: seq<Field>, cond: Conditions, i: nat)
    requires i < |fields|
    ensures fields[i].key in Tried(fields, cond) <==> Active(fields[i].key, cond)
  {
    var k := fields[i].key;
    FilteredMembers(KeysOf(fields), k);
    assert KeysOf(fields)[i] == k;
    hide Filtered, Order;
    assert k in Tried(fields, cond) <==>
      k in IfActive("node", cond) || k in IfActive("development", cond) || k in IfActive("production", cond)
      || k in Order(cond) || k in ["default"] || k in Filtered(KeysOf(fields));
    OrderKeys(cond, k);
  }

  lemma OrderKeys(cond: Conditions, k: string)
    ensures k in Order(cond) <==> k in {"import", "require", "default"}
  {
  }

  lemma TriedOnlyActive(fields: seq<Field>, cond: Conditions, k: string)
    requires k in Tried(fields, cond) && IndexOf(fields, k) >= 0
    ensures Active(k, cond)
  {
    TriedIsActive(fields, cond, IndexOf(fields, k));
  }

  /** What is picked is a reachable leaf; an empty text only from itself. */
  lemma {:induction false} PickedIsReached(target: Target, cond: Conditions)
    ensures var r := PickConditionalTarget(target, cond);
            && (r.Some? && r.value != "" ==> Reaches(target, cond, r.value))
            && (r == Some("") <==> target == Text(""))
    decreases target
  {
    if target.Object? {
      var keys := Tried(target.fields, cond);
      forall k | k in keys && IndexOf(target.fields, k) >= 0 ensures Active(k, cond) {
        TriedOnlyActive(target.fields, cond, k);
      }
      PickFirstReached(target, keys, cond);
    }
  }

  lemma {:induction false} PickFirstReached(target: Target, keys: seq<string>, cond: Conditions)
    requires target.Object?
    requires forall k :: k in keys && IndexOf(target.fields, k) >= 0 ==> Active(k, cond)
    ensures var r := PickFirst(target, keys, cond);
            r.Some? ==> r.value != "" && Reaches(target, cond, r.value)
    decreases target, |keys|
  {
    if keys != [] {
      var i := IndexOf(target.fields, keys[0]);
      assert keys[0] in keys;
      if i >= 0 {
        PickedIsReached(target.fields[i].value, cond);
      }
      PickFirstReached(target, keys[1..], cond);
    }
  }

  /** If any leaf is reachable, one is picked. */
  lemma {:induction false} ReachableIsPicked(target: Target, cond: Conditions, s: string)
    requires Reaches(target, cond, s)
    ensures var r := PickConditionalTarget(target, cond); r.Some? && r.value != ""
    decreases target
  {
    if target.Object? {
      var fields := target.fields;
      var i :| 0 <= i < |fields| && IndexOf(fields, fields[i].key) == i
               && Active(fields[i].key, cond) && Reaches(fields[i].value, cond, s);
      ReachableIsPicked(fields[i].value, cond, s);
      TriedIsActive(fields, cond, i);
      var keys := Tried(fields, cond);
      var n :| 0 <= n < |keys| && keys[n] == fields[i].key;
      PickFirstFinds(target, keys, n, cond);
    }
  }

  lemma {:induction false} PickFirstFinds(target: Target, keys: seq<string>, n: nat, cond: Conditions)
    requires target.Object? && n < |keys|
    requires var i := IndexOf(target.fields, keys[n]);
             i >= 0 && var got := PickConditionalTarget(target.fields[i].value, cond); got.Some? && got.value != ""
    ensures var r := PickFirst(target, keys, cond); r.Some? && r.value != ""
    decreases |keys|
  {
    if n > 0 {
      PickFirstFinds(target, keys[1..], n - 1, cond);
    }
  }

  /** A non-empty text is picked exactly when some leaf is reachable. */
  lemma PickIff(target: Target, cond: Conditions)
    ensures var r := PickConditionalTarget(target, cond);
            r.Some? && r.value != "" <==> exists s :: Reaches(target, cond, s)
  {
    PickedIsReached(target, cond);
    var r := PickConditionalTarget(target, cond);
    if r.Some? && r.value != "" {
      assert Reaches(target, cond, r.value);
    }
    if s :| Reaches(target, cond, s) {
      ReachableIsPicked(target, cond, s);
    }
  }

  // ---------- which leaf ----------

  /** The property at `i`, the first of its name, may be entered and leads to a text. */
  predicate Gives(fields: seq<Field>, cond: Conditions, i: int) {
    && 0 <= i < |fields| && IndexOf(fields, fields[i].key) == i && Active(fields[i].key, cond)
    && PickConditionalTarget(fields[i].value, cond).Some? && PickConditionalTarget(fields[i].value, cond).value != ""
  }

  /**
   * The order of preference: node, development, production; import before
   * require if importing and after it if not; default; then the other
   * properties as they stand.
   */
  function Precedence(fields: seq<Field>, cond: Conditions, i: nat): nat
    requires i < |fields|
  {
    match fields[i].key
    case "node" => 0
    case "development" => 1
    case "production" => 2
    case "import" => if "import" in cond then 3 else 4
    case "require" => if "import" in cond then 4 else 3
    case "default" => 5
    case _ => 6 + i
  }

  /** The property whose text is picked: the one of least precedence among those that lead to a text. */
  ghost predicate Chosen(fields: seq<Field>, cond: Conditions, i: int, r: Option<string>) {
    && Gives(fields, cond, i) && r == PickConditionalTarget(fields[i].value, cond)
    && forall j :: Gives(fields, cond, j) && j != i ==> Precedence(fields, cond, i) < Precedence(fields, cond, j)
  }

  lemma {:induction false} PickFirstAppend(target: Target, a: seq<string>, b: seq<string>, cond: Conditions)
    requires target.Object?
    ensures PickFirst(target, a + b, cond) ==
            if PickFirst(target, a, cond).Some? then PickFirst(target, a, cond) else PickFirst(target, b, cond)
    decreases |a|
  {
    hide PickConditionalTarget, IndexOf;
    if a == [] {
      assert a + b == b;
    } else {
      assert (a + b)[1..] == a[1..] + b;
      PickFirstAppend(target, a[1..], b, cond);
    }
  }

  /** What trying one key gives. */
  function TryKey(fields: seq<Field>, cond: Conditions, k: string): Option<string> {
    var i := IndexOf(fields, k);
    if i >= 0 && PickConditionalTarget(fields[i].value, cond) != Some("") then PickConditionalTarget(fields[i].value, cond) else None
  }

  lemma OneKey(fields: seq<Field>, cond: Conditions, k: string)
    ensures PickFirst(Object(fields), [k], cond) == TryKey(fields, cond, k)
  {
    hide PickConditionalTarget;
  }

  /** Trying an active key succeeds exactly if its property gives a text. */
  lemma TryKeyGives(fields: seq<Field>, cond: Conditions, k: string)
    requires Active(k, cond)
    ensures TryKey(fields, cond, k).Some? ==>
              var i := IndexOf(fields, k); Gives(fields, cond, i) && TryKey(fields, cond, k) == PickConditionalTarget(fields[i].value, cond)
    ensures forall i :: Gives(fields, cond, i) && fields[i].key == k ==> TryKey(fields, cond, k).Some?
  {
    hide PickConditionalTarget;
  }

  function OrElse(a: Option<string>, b: Option<string>): Option<string> {
    if a.Some? then a else b
  }

  function TryIfActive(fields: seq<Field>, cond: Conditions, k: string): Option<string> {
    if k in cond then TryKey(fields, cond, k) else None
  }

  lemma IfActiveKey(fields: seq<Field>, cond: Conditions, k: string)
    ensures PickFirst(Object(fields), IfActive(k, cond), cond) == TryIfActive(fields, cond, k)
  {
    hide PickConditionalTarget, TryKey;
    OneKey(fields, cond, k);
  }

  lemma OrderTried(fields: seq<Field>, cond: Conditions)
    ensures var first, second := if "import" in cond then "import" else "require", if "import" in cond then "require" else "import";
            PickFirst(Object(fields), Order(cond), cond) ==
            OrElse(TryKey(fields, cond, first), OrElse(TryKey(fields, cond, second), TryKey(fields, cond, "default")))
  {
    hide PickConditionalTarget, TryKey;
    var first, second := if "import" in cond then "import" else "require", if "import" in cond then "require" else "import";
    assert Order(cond) == [first] + ([second] + ["default"]);
    PickFirstAppend(Object(fields), [first], [second] + ["default"], cond);
    PickFirstAppend(Object(fields), [second], ["default"], cond);
    OneKey(fields, cond, first);
    OneKey(fields, cond, second);
    OneKey(fields, cond, "default");
  }

  /** The other properties that still stand, from `n` on. */
  function Others(fields: seq<Field>, cond: Conditions, n: nat): Option<string>
    requires n <= |fields|
  {
    PickFirst(Object(fields), Filtered(KeysOf(fields[n..])), cond)
  }

  /** The whole choice, stage by stage. */
  lemma Stages(fields: seq<Field>, cond: Conditions)
    ensures var first, second := if "import" in cond then "import" else "require", if "import" in cond then "require" else "import";
            PickConditionalTarget(Object(fields), cond) ==
            OrElse(TryIfActive(fields, cond, "node"),
            OrElse(TryIfActive(fields, cond, "development"),
            OrElse(TryIfActive(fields, cond, "production"),
            OrElse(TryKey(fields, cond, first),
            OrElse(TryKey(fields, cond, second),
            OrElse(TryKey(fields, cond, "default"), Others(fields, cond, 0)))))))
  {
    hide TryIfActive, TryKey, Order, IfActive, Filtered, KeysOf, IndexOf, PickFirst;
    var t := Object(fields);
    assert fields[0..] == fields;
    var rest := Filtered(KeysOf(fields));
    var tail := Order(cond) + ["default"] + rest;
    var p1, p2, p3 := IfActive("node", cond), IfActive("development", cond), IfActive("production", cond);
    assert Tried(fields, cond) == p1 + (p2 + (p3 + (Order(cond) + (["default"] + rest))));
    PickFirstAppend(t, p1, p2 + (p3 + (Order(cond) + (["default"] + rest))), cond);
    PickFirstAppend(t, p2, p3 + (Order(cond) + (["default"] + rest)), cond);
    PickFirstAppend(t, p3, Order(cond) + (["default"] + rest), cond);
    PickFirstAppend(t, Order(cond), ["default"] + rest, cond);
    PickFirstAppend(t, ["default"], rest, cond);
    IfActiveKey(fields, cond, "node");
    IfActiveKey(fields, cond, "development");
    IfActiveKey(fields, cond, "production");
    OrderTried(fields, cond);
    OneKey(fields, cond, "default");
  }

  /** The last loop finds the first of the other properties that gives a text. */
  lemma {:induction false} OthersFirst(fields: seq<Field>, cond: Conditions, n: nat)
    requires n <= |fields|
    requires forall j :: 0 <= j < n && Remaining(fields[j].key) ==> !Gives(fields, cond, j)
    ensures var r := Others(fields, cond, n);
            if r.Some? then
              exists i :: n <= i < |fields| && Remaining(fields[i].key) && Gives(fields, cond, i)
                          && r == PickConditionalTarget(fields[i].value, cond)
                          && forall j :: 0 <= j < i && Remaining(fields[j].key) ==> !Gives(fields, cond, j)
            else forall j :: 0 <= j < |fields| && Remaining(fields[j].key) ==> !Gives(fields, cond, j)
    decreases |fields| - n
  {
    if n < |fields| {
      hide PickConditionalTarget, TryKey, Gives;
      var k := fields[n].key;
      assert fields[n..][0] == fields[n] && fields[n..][1..] == fields[n + 1..];
      OthersStep(fields, cond, n);
      if Remaining(k) {
        RemainingGives(fields, cond, n);
      }
      if !(Remaining(k) && TryKey(fields, cond, k).Some?) {
        OthersFirst(fields, cond, n + 1);
      }
    }
  }

  lemma OthersStep(fields: seq<Field>, cond: Conditions, n: nat)
    requires n < |fields|
    ensures Others(fields, cond, n) ==
            OrElse(if Remaining(fields[n].key) then TryKey(fields, cond, fields[n].key) else None, Others(fields, cond, n + 1))
  {
    hide PickConditionalTarget, TryKey;
    var k := fields[n].key;
    assert fields[n..][0] == fields[n] && fields[n..][1..] == fields[n + 1..];
    var rest := Filtered(KeysOf(fields[n + 1..]));
    var ks := KeysOf(fields[n..]);
    assert ks == [k] + KeysOf(fields[n + 1..]);
    assert ks[1..] == KeysOf(fields[n + 1..]);
    assert Filtered(ks) == (if Remaining(k) then [k] else []) + rest;
    if Remaining(k) {
      PickFirstAppend(Object(fields), [k], rest, cond);
      OneKey(fields, cond, k);
    } else {
      assert [] + rest == rest;
    }
  }

  lemma RemainingGives(fields: seq<Field>, cond: Conditions, n: nat)
    requires n < |fields| && Remaining(fields[n].key)
    requires forall j :: 0 <= j < n && Remaining(fields[j].key) ==> !Gives(fields, cond, j)
    ensures TryKey(fields, cond, fields[n].key).Some? <==> Gives(fields, cond, n)
    ensures Gives(fields, cond, n) ==> TryKey(fields, cond, fields[n].key) == PickConditionalTarget(fields[n].value, cond)
  {
    hide PickConditionalTarget;
    TryKeyGives(fields, cond, fields[n].key);
    hide TryKey;
    FirstIndex(fields, n);
  }

  lemma {:induction false} FirstIndex(fields: seq<Field>, n: nat)
    requires n < |fields|
    ensures 0 <= IndexOf(fields, fields[n].key) <= n
  {
    if n > 0 && fields[0].key != fields[n].key {
      FirstIndex(fields[1..], n - 1);
    }
  }

  /** No property of this name gives a text. */
  ghost predicate Fruitless(fields: seq<Field>, cond: Conditions, k: string) {
    forall j :: Gives(fields, cond, j) ==> fields[j].key != k
  }

  /** A named key that is tried and gives nothing is fruitless, and so is one that is not tried for want of its condition. */
  lemma TriedInVain(fields: seq<Field>, cond: Conditions, k: string)
    requires k != "types" && (if k in {"node", "development", "production"} then TryIfActive(fields, cond, k) else TryKey(fields, cond, k)).None?
    ensures Fruitless(fields, cond, k)
  {
    hide PickConditionalTarget, TryKey;
    if Active(k, cond) {
      TryKeyGives(fields, cond, k);
    }
  }

  /** The named keys that come before `k`. */
  predicate Earlier(cond: Conditions, e: string, k: string) {
    match k
    case "node" => false
    case "development" => e == "node"
    case "production" => e in {"node", "development"}
    case "import" => e in {"node", "development", "production"} || (e == "require" && "import" !in cond)
    case "require" => e in {"node", "development", "production"} || (e == "import" && "import" in cond)
    case "default" => e in {"node", "development", "production", "import", "require"}
    case _ => e in {"node", "development", "production", "import", "require", "default"}
  }

  lemma NamedChosen(fields: seq<Field>, cond: Conditions, k: string)
    requires Active(k, cond) && !Remaining(k) && TryKey(fields, cond, k).Some?
    requires forall e :: Earlier(cond, e, k) ==> Fruitless(fields, cond, e)
    ensures TryKey(fields, cond, k).value != ""
    ensures Chosen(fields, cond, IndexOf(fields, k), TryKey(fields, cond, k))
  {
    hide PickConditionalTarget;
    TryKeyGives(fields, cond, k);
    hide TryKey;
    var i := IndexOf(fields, k);
    forall j | Gives(fields, cond, j) && j != i ensures Precedence(fields, cond, i) < Precedence(fields, cond, j) {
      var e := fields[j].key;
      assert e != k;
      assert !Earlier(cond, e, k);
    }
  }

  lemma OtherChosen(fields: seq<Field>, cond: Conditions)
    requires forall e :: Earlier(cond, e, "") ==> Fruitless(fields, cond, e)
    ensures var r := Others(fields, cond, 0);
            if r.Some? then r.value != "" && exists i :: Chosen(fields, cond, i, r) else forall i :: !Gives(fields, cond, i)
  {
    hide PickConditionalTarget, Others;
    OthersFirst(fields, cond, 0);
    var r := Others(fields, cond, 0);
    forall j | Gives(fields, cond, j) ensures Remaining(fields[j].key) {
      assert !Earlier(cond, fields[j].key, "");
    }
    if r.Some? {
      var i :| 0 <= i < |fields| && Remaining(fields[i].key) && Gives(fields, cond, i)
               && r == PickConditionalTarget(fields[i].value, cond)
               && forall j :: 0 <= j < i && Remaining(fields[j].key) ==> !Gives(fields, cond, j);
      forall j | Gives(fields, cond, j) && j != i ensures Precedence(fields, cond, i) < Precedence(fields, cond, j) {
      }
      assert Chosen(fields, cond, i, r);
    }
  }

  /** The text picked from an object is that of the first property, in the order of preference, that leads to one. */
  lemma PickedIsFirst(fields: seq<Field>, cond: Conditions)
    ensures var r := PickConditionalTarget(Object(fields), cond);
            if r.Some? then r.value != "" && exists i :: Chosen(fields, cond, i, r) else forall i :: !Gives(fields, cond, i)
  {
    hide PickConditionalTarget, TryKey, Others, Gives, Chosen, Precedence, Fruitless;
    Stages(fields, cond);
    var first, second := if "import" in cond then "import" else "require", if "import" in cond then "require" else "import";
    if TryIfActive(fields, cond, "node").Some? {
      NamedChosen(fields, cond, "node");
      return;
    }
    TriedInVain(fields, cond, "node");
    if TryIfActive(fields, cond, "development").Some? {
      NamedChosen(fields, cond, "development");
      return;
    }
    TriedInVain(fields, cond, "development");
    if TryIfActive(fields, cond, "production").Some? {
      NamedChosen(fields, cond, "production");
      return;
    }
    TriedInVain(fields, cond, "production");
    if TryKey(fields, cond, first).Some? {
      NamedChosen(fields, cond, first);
      return;
    }
    TriedInVain(fields, cond, first);
    if TryKey(fields, cond, second).Some? {
      NamedChosen(fields, cond, second);
      return;
    }
    TriedInVain(fields, cond, second);
    if TryKey(fields, cond, "default").Some? {
      NamedChosen(fields, cond, "default");
      return;
    }
    TriedInVain(fields, cond, "default");
    OtherChosen(fields, cond);
  }

  // ---------- patterns with one star ----------

  /** Where the first star is, or -1. */
  function Star(p: string): (i: int)
    ensures -1 <= i < |p| && (i >= 0 ==> p[i] == '*') && (i < 0 ==> '*' !in p)
  {
    if p == [] then -1
    else if p[0] == '*' then 0
    else
      var i := Star(p[1..]);
      if i < 0 then -1 else i + 1
  }

  predicate EndsWith(s: string, post: string) {
    |post| <= |s| && s[|s| - |post|..] == post
  }

  function MatchSingleStar(pattern: string, str: string): Option<string> {
    var i := Star(pattern);
    if i == -1 then (if pattern == str then Some("") else None)
    else Between(pattern[..i], pattern[i + 1..], str)
  }

  /** What stands between a prefix and a suffix. */
  function Between(pre: string, post: string, str: string): Option<string> {
    if !(pre <= str) then None
    else
      var rest := str[|pre|..];
      if post != "" then (if EndsWith(rest, post) then Some(rest[..|rest| - |post|]) else None)
      else Some(rest)
  }

  function ApplyStarTarget(pattern: string, star: string): string {
    var i := Star(pattern);
    if i == -1 then pattern else pattern[..i] + star + pattern[i + 1..]
  }

  /** Matching is the inverse of substitution: the match is the one text that gives the subject back. */
  lemma StarRoundTrip(pattern: string, str: string, star: string)
    requires '*' in pattern
    ensures MatchSingleStar(pattern, str) == Some(star) <==> ApplyStarTarget(pattern, star) == str
  {
    var i := Star(pattern);
    BetweenParts(pattern[..i], pattern[i + 1..], str, star);
  }

  lemma {:induction false} StarAt(pre: string, post: string)
    requires '*' !in pre
    ensures Star(pre + "*" + post) == |pre|
    decreases |pre|
  {
    var p := pre + "*" + post;
    if pre != [] {
      assert p[1..] == pre[1..] + "*" + post;
      StarAt(pre[1..], post);
    }
  }

  /** It is the first star that stands for the captured text, any later ones standing for themselves. */
  lemma FirstStar(pre: string, post: string, star: string)
    requires '*' !in pre
    ensures ApplyStarTarget(pre + "*" + post, star) == pre + star + post
    ensures MatchSingleStar(pre + "*" + post, pre + star + post) == Some(star)
  {
    var p := pre + "*" + post;
    StarAt(pre, post);
    assert p[..|pre|] == pre && p[|pre| + 1..] == post;
    assert p[|pre|] == '*';
    StarRoundTrip(p, pre + star + post, star);
  }

  /** Without a star there is nothing to capture and nothing to substitute. */
  lemma NoStar(pattern: string, str: string, star: string)
    requires '*' !in pattern
    ensures MatchSingleStar(pattern, str) == (if pattern == str then Some("") else None)
    ensures ApplyStarTarget(pattern, star) == pattern
  {
    assert Star(pattern) == -1;
  }

  lemma BetweenParts(pre: string, post: string, str: string, star: string)
    ensures Between(pre, post, str) == Some(star) <==> pre + star + post == str
  {
    if Between(pre, post, str) == Some(star) {
      var rest := str[|pre|..];
      assert str == pre + rest;
      assert rest == rest[..|star|] + rest[|star|..];
    }
    if pre + star + post == str {
      assert pre <= str && str[|pre|..] == star + post;
      assert EndsWith(star + post, post) && (star + post)[..|star|] == star;
      assert post == "" ==> star + post == star;
    }
  }

  // ---------- an exports object ----------

  function StripSlashes(s: string): string {
    if s != [] && s[0] == '/' then StripSlashes(s[1..]) else s
  }

  function KeysToTry(subpath: string): seq<string> {
    if subpath == "." then [".", "./"]
    else if "." <= subpath then [subpath]
    else ["./" + StripSlashes(subpath)]
  }

  /** A subpath that does not start with a dot is tried below the package, its leading slashes taken off. */
  lemma {:induction false} BareKey(slashes: string, rest: string)
    requires (forall i :: 0 <= i < |slashes| ==> slashes[i] == '/') && (rest != [] ==> rest[0] != '/')
    ensures StripSlashes(slashes + rest) == rest
    ensures !("." <= slashes + rest) ==> KeysToTry(slashes + rest) == ["./" + rest]
    decreases |slashes|
  {
    if slashes == [] {
      assert slashes + rest == rest;
    } else {
      assert (slashes + rest)[1..] == slashes[1..] + rest;
      BareKey(slashes[1..], rest);
    }
  }

  /** The exact keys, in order. */
  function Exact(fields: seq<Field>, keys: seq<string>, cond: Conditions): Option<string> {
    if keys == [] then None
    else
      var i := IndexOf(fields, keys[0]);
      var got := if i < 0 then None else PickConditionalTarget(fields[i].value, cond);
      if got.Some? && got.value != "" then got else Exact(fields, keys[1..], cond)
  }

  /** What a pattern property gives for a subpath: nothing, or a text. */
  function Mapped(f: Field, key: string, cond: Conditions): Option<string> {
    match MatchSingleStar(f.key, key)
    case None => None
    case Some(star) =>
      match PickConditionalTarget(f.value, cond)
      case None => None
      case Some(raw) => if ApplyStarTarget(raw, star) == "" then None else Some(ApplyStarTarget(raw, star))
  }

  function MapFirst(f: Field, keys: seq<string>, cond: Conditions): Option<string> {
    if keys == [] then None
    else if Mapped(f, keys[0], cond).Some? then Mapped(f, keys[0], cond)
    else MapFirst(f, keys[1..], cond)
  }

  function Patterns(fields: seq<Field>, keys: seq<string>, cond: Conditions): Option<string> {
    if fields == [] then None
    else
      var got := if '*' in fields[0].key then MapFirst(fields[0], keys, cond) else None;
      if got.Some? then got else Patterns(fields[1..], keys, cond)
  }

  function ResolveExportsObject(exports: Target, subpath: string, cond: Conditions): Option<string> {
    match exports
    case Text(s) => if subpath == "." then Some(s) else None
    case Other => None
    case Object(fields) =>
      var exact := Exact(fields, KeysToTry(subpath), cond);
      if exact.Some? then exact else Patterns(fields, KeysToTry(subpath), cond)
  }

  /** A resolution through an object comes from an exact key, or from a pattern that the subpath instantiates. */
  ghost predicate Justified(fields: seq<Field>, keys: seq<string>, cond: Conditions, r: string) {
    || (exists i :: 0 <= i < |fields| && fields[i].key in keys && Reaches(fields[i].value, cond, r))
    || (exists i, star, raw :: FromPattern(fields, keys, cond, r, i, star, raw))
  }

  ghost predicate FromPattern(fields: seq<Field>, keys: seq<string>, cond: Conditions, r: string, i: int, star: string, raw: string) {
    && 0 <= i < |fields| && '*' in fields[i].key && ApplyStarTarget(fields[i].key, star) in keys
    && Reaches(fields[i].value, cond, raw) && r == ApplyStarTarget(raw, star)
  }

  lemma {:induction false} ExactJustified(fields: seq<Field>, keys: seq<string>, cond: Conditions, all: seq<string>)
    requires forall k :: k in keys ==> k in all
    ensures var r := Exact(fields, keys, cond); r.Some? ==> r.value != "" && Justified(fields, all, cond, r.value)
  {
    if keys != [] {
      var i := IndexOf(fields, keys[0]);
      assert keys[0] in keys;
      if i >= 0 {
        PickedIsReached(fields[i].value, cond);
      }
      ExactJustified(fields, keys[1..], cond, all);
    }
  }

  lemma {:induction false} MapJustified(fields: seq<Field>, i: nat, keys: seq<string>, cond: Conditions, all: seq<string>)
    requires i < |fields| && '*' in fields[i].key && forall k :: k in keys ==> k in all
    ensures var r := MapFirst(fields[i], keys, cond); r.Some? ==> r.value != "" && Justified(fields, all, cond, r.value)
  {
    if keys != [] {
      assert keys[0] in keys;
      MapJustified(fields, i, keys[1..], cond, all);
      var f := fields[i];
      if Mapped(f, keys[0], cond).Some? {
        var star := MatchSingleStar(f.key, keys[0]).value;
        var raw := PickConditionalTarget(f.value, cond).value;
        StarRoundTrip(f.key, keys[0], star);
        PickedIsReached(f.value, cond);
        assert raw == "" ==> ApplyStarTarget(raw, star) == "";
        assert FromPattern(fields, all, cond, ApplyStarTarget(raw, star), i, star, raw);
      }
    }
  }

  lemma {:induction false} PatternsJustified(fields: seq<Field>, n: nat, keys: seq<string>, cond: Conditions)
    requires n <= |fields|
    ensures var r := Patterns(fields[n..], keys, cond); r.Some? ==> r.value != "" && Justified(fields, keys, cond, r.value)
    decreases |fields| - n
  {
    if n < |fields| {
      assert fields[n..][0] == fields[n] && fields[n..][1..] == fields[n + 1..];
      if '*' in fields[n].key {
        MapJustified(fields, n, keys, cond, keys);
      }
      PatternsJustified(fields, n + 1, keys, cond);
    }
  }

  lemma ResolvedIsJustified(fields: seq<Field>, subpath: string, cond: Conditions)
    ensures var r := ResolveExportsObject(Object(fields), subpath, cond);
            r.Some? ==> r.value != "" && Justified(fields, KeysToTry(subpath), cond, r.value)
  {
    ExactJustified(fields, KeysToTry(subpath), cond, KeysToTry(subpath));
    PatternsJustified(fields, 0, KeysToTry(subpath), cond);
    assert fields[0..] == fields;
  }

  // ---------- when nothing is resolved, and which key wins ----------

  /** Property `i` is one of the exact keys (the first property so called) and picks the text `r`. */
  predicate ExactGives(fields: seq<Field>, keys: seq<string>, cond: Conditions, i: int, r: string) {
    && 0 <= i < |fields| && IndexOf(fields, fields[i].key) == i && fields[i].key in keys
    && r != "" && PickConditionalTarget(fields[i].value, cond) == Some(r)
  }

  /** Property `i` is a pattern of one of the keys, and what it picks becomes the text `r`. */
  predicate PatternGives(fields: seq<Field>, keys: seq<string>, cond: Conditions, i: int, star: string, r: string) {
    && 0 <= i < |fields| && '*' in fields[i].key && ApplyStarTarget(fields[i].key, star) in keys
    && r != "" && PickConditionalTarget(fields[i].value, cond).Some?
    && ApplyStarTarget(PickConditionalTarget(fields[i].value, cond).value, star) == r
  }

  lemma {:induction false} ExactIff(fields: seq<Field>, keys: seq<string>, cond: Conditions)
    ensures var e := Exact(fields, keys, cond);
            if e.Some? then exists i :: ExactGives(fields, keys, cond, i, e.value)
            else forall i, r :: !ExactGives(fields, keys, cond, i, r)
    decreases |keys|
  {
    if keys != [] {
      var i := IndexOf(fields, keys[0]);
      ExactIff(fields, keys[1..], cond);
      var got := if i < 0 then None else PickConditionalTarget(fields[i].value, cond);
      if got.Some? && got.value != "" {
        assert Exact(fields, keys, cond) == got;
        assert ExactGives(fields, keys, cond, i, got.value);
      } else if Exact(fields, keys[1..], cond).Some? {
        var r := Exact(fields, keys[1..], cond).value;
        assert Exact(fields, keys, cond) == Some(r);
        var j :| ExactGives(fields, keys[1..], cond, j, r);
        assert ExactGives(fields, keys, cond, j, r);
      } else {
        forall j, r ensures !ExactGives(fields, keys, cond, j, r) {
          assert !ExactGives(fields, keys[1..], cond, j, r);
        }
      }
    }
  }

  /** One pattern property and one key. */
  lemma MappedIff(fields: seq<Field>, i: nat, key: string, cond: Conditions)
    requires i < |fields| && '*' in fields[i].key
    ensures var m := Mapped(fields[i], key, cond);
            if m.Some? then exists star :: PatternGives(fields, [key], cond, i, star, m.value)
            else forall star, r :: !PatternGives(fields, [key], cond, i, star, r)
  {
    var f := fields[i];
    forall star: string ensures MatchSingleStar(f.key, key) == Some(star) <==> ApplyStarTarget(f.key, star) == key {
      StarRoundTrip(f.key, key, star);
    }
    if Mapped(f, key, cond).Some? {
      assert PatternGives(fields, [key], cond, i, MatchSingleStar(f.key, key).value, Mapped(f, key, cond).value);
    }
  }

  lemma {:induction false} MapFirstIff(fields: seq<Field>, i: nat, keys: seq<string>, cond: Conditions)
    requires i < |fields| && '*' in fields[i].key
    ensures var m := MapFirst(fields[i], keys, cond);
            if m.Some? then exists star :: PatternGives(fields, keys, cond, i, star, m.value)
            else forall star, r :: !PatternGives(fields, keys, cond, i, star, r)
    decreases |keys|
  {
    hide PickConditionalTarget, ApplyStarTarget, Mapped;
    if keys != [] {
      MappedIff(fields, i, keys[0], cond);
      MapFirstIff(fields, i, keys[1..], cond);
      match MapFirst(fields[i], keys, cond)
      case Some(r) =>
        if Mapped(fields[i], keys[0], cond).Some? {
          assert Mapped(fields[i], keys[0], cond) == Some(r);
          var star :| PatternGives(fields, [keys[0]], cond, i, star, r);
          assert PatternGives(fields, keys, cond, i, star, r);
        } else {
          assert MapFirst(fields[i], keys[1..], cond) == Some(r);
          var star :| PatternGives(fields, keys[1..], cond, i, star, r);
          assert PatternGives(fields, keys, cond, i, star, r);
        }
      case None =>
        forall star, r ensures !PatternGives(fields, keys, cond, i, star, r) {
          assert !PatternGives(fields, [keys[0]], cond, i, star, r);
          assert !PatternGives(fields, keys[1..], cond, i, star, r);
        }
    }
  }

  /** No pattern property from `n` up to `m` gives a text. */
  ghost predicate NoPattern(fields: seq<Field>, keys: seq<string>, cond: Conditions, n: int, m: int) {
    forall i, star, r :: n <= i < m ==> !PatternGives(fields, keys, cond, i, star, r)
  }

  lemma {:induction false} PatternsIff(fields: seq<Field>, n: nat, keys: seq<string>, cond: Conditions)
    requires n <= |fields|
    ensures var p := Patterns(fields[n..], keys, cond);
            if p.Some? then exists i, star :: n <= i && PatternGives(fields, keys, cond, i, star, p.value) && NoPattern(fields, keys, cond, n, i)
            else NoPattern(fields, keys, cond, n, |fields|)
    decreases |fields| - n
  {
    if n < |fields| {
      hide PickConditionalTarget, ApplyStarTarget, MapFirst;
      assert fields[n..][0] == fields[n] && fields[n..][1..] == fields[n + 1..];
      PatternsIff(fields, n + 1, keys, cond);
      if '*' in fields[n].key {
        MapFirstIff(fields, n, keys, cond);
      }
      var r := Patterns(fields[n..], keys, cond);
      if '*' in fields[n].key && MapFirst(fields[n], keys, cond).Some? {
        assert r == MapFirst(fields[n], keys, cond);
        var star :| PatternGives(fields, keys, cond, n, star, r.value);
        assert NoPattern(fields, keys, cond, n, n);
      } else if r.Some? {
        assert r == Patterns(fields[n + 1..], keys, cond);
        var i, star :| n + 1 <= i && PatternGives(fields, keys, cond, i, star, r.value) && NoPattern(fields, keys, cond, n + 1, i);
        assert NoPattern(fields, keys, cond, n, i);
      }
    }
  }

  /** Nothing is resolved exactly when no exact key and no pattern gives a text. */
  lemma NothingResolvedIff(fields: seq<Field>, subpath: string, cond: Conditions)
    ensures var keys := KeysToTry(subpath);
            ResolveExportsObject(Object(fields), subpath, cond) == None
            <==> && (forall i, r :: !ExactGives(fields, keys, cond, i, r))
                 && (forall i, star, r :: !PatternGives(fields, keys, cond, i, star, r))
  {
    hide PickConditionalTarget, ApplyStarTarget, KeysToTry;
    ExactIff(fields, KeysToTry(subpath), cond);
    PatternsIff(fields, 0, KeysToTry(subpath), cond);
    assert fields[0..] == fields;
  }

  /** An exact key that gives a text wins over every pattern; without one, the first pattern in order that gives a text wins. */
  lemma WinnerIs(fields: seq<Field>, subpath: string, cond: Conditions)
    ensures var keys := KeysToTry(subpath);
            match ResolveExportsObject(Object(fields), subpath, cond)
            case None => true
            case Some(r) =>
              || (exists i :: ExactGives(fields, keys, cond, i, r))
              || (&& (forall i, s :: !ExactGives(fields, keys, cond, i, s))
                  && exists i, star :: PatternGives(fields, keys, cond, i, star, r) && NoPattern(fields, keys, cond, 0, i))
  {
    hide PickConditionalTarget, ApplyStarTarget, KeysToTry, NoPattern;
    ExactIff(fields, KeysToTry(subpath), cond);
    PatternsIff(fields, 0, KeysToTry(subpath), cond);
    assert fields[0..] == fields;
  }
}
