/**
 * `validateSchema`: run a schema and fold its issue list into a
 * `{ result, errors }` pair, where `errors` maps the first path element of
 * each issue to its message and later issues overwrite earlier ones.
 */
module ValidateSchema {
  import opened Optional
  import opened Schema

  /** The returned object: `result` is true when there are errors. */
  datatype Validation = Validation(result: bool, errors: map<string, string>)

  /** JavaScript truthiness of a path element: `""` and `0` are falsy. */
  predicate Truthy(e: PathElem) {
    match e
    case Key(s) => s != ""
    case Index(n) => n != 0
  }

  function Digit(d: nat): (c: char)
    requires d < 10
    ensures '0' <= c <= '9'
  {
    ('0' as int + d) as char
  }

  /** The decimal numeral of `n`, as JavaScript writes a numeric property key. */
  function DecimalString(n: nat): (r: string)
    ensures |r| > 0
    ensures forall i | 0 <= i < |r| :: '0' <= r[i] <= '9'
    decreases n
  {
    if n < 10 then [Digit(n)] else DecimalString(n / 10) + [Digit(n % 10)]
  }

  /** The property name `errors[e]` writes to. */
  function PropertyKey(e: PathElem): string {
    match e
    case Key(s) => s
    case Index(n) => DecimalString(n)
  }

  /**
   * Assigning to `errors["__proto__"]` runs the prototype setter of a plain
   * object, which ignores a string value, so no key is stored.
   */
  const ProtoKey := "__proto__"

  /**
   * The key an issue is stored under: the property name of `path[0]`, or
   * None when `path[0]` is missing or falsy, or names the prototype.
   */
  function KeyOf(issue: Issue): (k: Option<string>)
    ensures k.Some? <==> |issue.path| > 0 && Truthy(issue.path[0]) && PropertyKey(issue.path[0]) != ProtoKey
    ensures k.Some? ==> k.value == PropertyKey(issue.path[0])
    ensures k.Some? ==> k.value != "" && k.value != ProtoKey
  {
    if |issue.path| > 0 && Truthy(issue.path[0]) && PropertyKey(issue.path[0]) != ProtoKey
    then Some(PropertyKey(issue.path[0]))
    else None
  }

  /** Two issues whose paths start with the same element are stored under the same key. */
  lemma KeyDependsOnlyOnFirstElement(a: Issue, b: Issue)
    requires |a.path| > 0 && |b.path| > 0 && a.path[0] == b.path[0]
    ensures KeyOf(a) == KeyOf(b)
  {
  }

  /** One step of the `forEach`. */
  function Record(errors: map<string, string>, issue: Issue): map<string, string> {
    match KeyOf(issue)
    case Some(k) => errors[k := issue.message]
    case None => errors
  }

  /** The `forEach` over the issue list, as a left fold. */
  function Collect(issues: seq<Issue>, errors: map<string, string>): map<string, string>
    decreases |issues|
  {
    if |issues| == 0 then errors else Collect(issues[1..], Record(errors, issues[0]))
  }

  /** `validateSchema` given the outcome of `schema.safeParse(data)`. */
  function Validate<T>(p: ParseResult<T>): (v: Validation)
    ensures p.Parsed? ==> !v.result && v.errors == map[]
    ensures p.Failed? ==> v.result
    ensures p.Failed? ==> forall k | k in v.errors ::
      exists i :: IsLastFor(p.issues, k, i) && v.errors[k] == p.issues[i].message
    ensures p.Failed? ==> forall i | 0 <= i < |p.issues| && KeyOf(p.issues[i]).Some? ::
      KeyOf(p.issues[i]).value in v.errors
  {
    match p
    case Parsed(_) => Validation(false, map[])
    case Failed(issues) =>
      CollectSpec(issues);
      Validation(true, Collect(issues, map[]))
  }

  /** Issue `i` is the last one stored under key `k`. */
  predicate IsLastFor(issues: seq<Issue>, k: string, i: int) {
    && 0 <= i < |issues|
    && KeyOf(issues[i]) == Some(k)
    && forall j | i < j < |issues| :: KeyOf(issues[j]) != Some(k)
  }

  /** The fold over `issues + [issue]` is the fold over `issues` followed by one more step. */
  lemma {:induction false} CollectSnoc(issues: seq<Issue>, issue: Issue, errors: map<string, string>)
    ensures Collect(issues + [issue], errors) == Record(Collect(issues, errors), issue)
    decreases |issues|
  {
    if |issues| > 0 {
      assert (issues + [issue])[1..] == issues[1..] + [issue];
      CollectSnoc(issues[1..], issue, Record(errors, issues[0]));
    }
  }

  /**
   * Starting from an empty map, each stored message is the message of the
   * last issue with that key, and every issue with a key has its key stored.
   */
  lemma {:induction false} CollectSpec(issues: seq<Issue>)
    ensures forall k | k in Collect(issues, map[]) ::
      exists i :: IsLastFor(issues, k, i) && Collect(issues, map[])[k] == issues[i].message
    ensures forall i | 0 <= i < |issues| && KeyOf(issues[i]).Some? ::
      KeyOf(issues[i]).value in Collect(issues, map[])
    decreases |issues|
  {
    if |issues| > 0 {
      var init, last := issues[..|issues| - 1], issues[|issues| - 1];
      assert issues == init + [last];
      CollectSpec(init);
      CollectSnoc(init, last, map[]);
      var before := Collect(init, map[]);
      var after := Collect(issues, map[]);
      assert after == Record(before, last);
      forall k | k in after
        ensures exists i :: IsLastFor(issues, k, i) && after[k] == issues[i].message
      {
        if KeyOf(last) == Some(k) {
          assert IsLastFor(issues, k, |issues| - 1);
        } else {
          var i :| IsLastFor(init, k, i) && before[k] == init[i].message;
          assert issues[i] == init[i];
          assert IsLastFor(issues, k, i);
        }
      }
      forall i | 0 <= i < |issues| && KeyOf(issues[i]).Some?
        ensures KeyOf(issues[i]).value in after
      {
        if i < |init| {
          assert issues[i] == init[i];
        }
      }
    }
  }

  /** When the last issue has key `k`, its message is the one `errors[k]` ends up holding. */
  lemma {:induction false} LastIssueWins(issues: seq<Issue>, k: string)
    requires |issues| > 0 && KeyOf(issues[|issues| - 1]) == Some(k)
    ensures k in Collect(issues, map[])
    ensures Collect(issues, map[])[k] == issues[|issues| - 1].message
  {
    CollectSpec(issues);
    var errors := Collect(issues, map[]);
    var i :| IsLastFor(issues, k, i) && errors[k] == issues[i].message;
    assert i == |issues| - 1;
  }

  /** The set of keys the issues are stored under. */
  function KeysOf(issues: seq<Issue>): set<string>
    decreases |issues|
  {
    if |issues| == 0 then {}
    else
      (match KeyOf(issues[0]) case Some(k) => {k} case None => {}) + KeysOf(issues[1..])
  }

  lemma {:induction false} KeysOfAppend(a: seq<Issue>, b: seq<Issue>)
    ensures KeysOf(a + b) == KeysOf(a) + KeysOf(b)
    decreases |a|
  {
    if |a| > 0 {
      assert (a + b)[0] == a[0] && (a + b)[1..] == a[1..] + b;
      KeysOfAppend(a[1..], b);
    } else {
      assert a + b == b;
    }
  }

  /** The fold adds exactly the keys of the issues to the keys already present. */
  lemma {:induction false} CollectKeys(issues: seq<Issue>, errors: map<string, string>)
    ensures Collect(issues, errors).Keys == errors.Keys + KeysOf(issues)
    decreases |issues|
  {
    if |issues| > 0 {
      CollectKeys(issues[1..], Record(errors, issues[0]));
    }
  }

  /** Issues all on one non-empty field yield that field as the only key, or none. */
  lemma {:induction false} KeysOfOneField(issues: seq<Issue>, field: string)
    requires field != "" && field != ProtoKey
    requires AllOnField(issues, field)
    ensures KeysOf(issues) == if |issues| == 0 then {} else {field}
    decreases |issues|
  {
    if |issues| > 0 {
      assert KeyOf(issues[0]) == Some(field);
      KeysOfOneField(issues[1..], field);
    }
  }

  /**
   * Only `path[0]` and the message take part: two issue lists that agree on
   * keys and messages, whatever their deeper path elements, give the same map.
   */
  lemma {:induction false} OnlyFirstPathElementMatters(a: seq<Issue>, b: seq<Issue>, errors: map<string, string>)
    requires |a| == |b|
    requires forall i | 0 <= i < |a| :: KeyOf(a[i]) == KeyOf(b[i]) && a[i].message == b[i].message
    ensures Collect(a, errors) == Collect(b, errors)
    decreases |a|
  {
    if |a| > 0 {
      assert Record(errors, a[0]) == Record(errors, b[0]);
      OnlyFirstPathElementMatters(a[1..], b[1..], Record(errors, a[0]));
    }
  }

  /** Issues on `["tags", 0]` and `["tags", 3]` collapse into the one key `"tags"`, and `[1]` and `["1"]` share a key. */
  lemma CollapsingExamples(m1: string, m2: string)
    ensures Validate<int>(Failed([Issue([Key("tags"), Index(0)], m1), Issue([Key("tags"), Index(3)], m2)]))
         == Validation(true, map["tags" := m2])
    ensures KeyOf(Issue([Index(1)], m1)) == KeyOf(Issue([Key("1")], m1)) == Some("1")
  {
  }

  /** Issues without a truthy `path[0]` contribute no key. */
  lemma {:induction false} NoKeysWithoutFirstElement(issues: seq<Issue>)
    requires forall i | 0 <= i < |issues| :: |issues[i].path| == 0 || !Truthy(issues[i].path[0])
    ensures KeysOf(issues) == {}
    decreases |issues|
  {
    if |issues| > 0 {
      NoKeysWithoutFirstElement(issues[1..]);
    }
  }

  /**
   * A failed parse reports `result == true` even when no issue has a truthy
   * `path[0]`; such issues never reach the map, so it stays empty.
   */
  lemma FailureWithoutKeys(issues: seq<Issue>)
    requires forall i | 0 <= i < |issues| :: |issues[i].path| == 0 || !Truthy(issues[i].path[0])
    ensures Validate<int>(Failed(issues)) == Validation(true, map[])
  {
    NoKeysWithoutFirstElement(issues);
    CollectKeys(issues, map[]);
  }

  /** An issue on `"__proto__"` leaves no key behind. */
  lemma ProtoKeyNotStored(m: string)
    ensures Validate<int>(Failed([Issue([Key(ProtoKey)], m)])) == Validation(true, map[])
  {
    var issues := [Issue([Key(ProtoKey)], m)];
    assert Collect(issues, map[]) == Collect(issues[1..], map[]);
  }
}
