/** The canonical form of catalog documents and of PostgreSQL ACL items.
  *
  * `Normalize` is the recursive canonicaliser, `Same` says without it which documents count as the
  * same catalog: those that differ in the order of all-string arrays and in the grantors of ACL
  * items. The main result is that the canonical form decides exactly that relation.
  */
module CatalogCanonical {
  import opened Sorting
  import opened TextSearch
  import opened Wrappers

  /** A nested document. `Other` stands for the values that are neither text nor containers; the
    * fields of a mapping come in insertion order. */
  datatype Json = Text(text: string) | Array(items: seq<Json>) | Object(fields: seq<Field>) | Other(code: int)

  datatype Field = Field(name: string, value: Json)

  // ---- One ACL item ----

  /** Offset of the slash before the grantor. */
  function GrantorAt(u: string, quoted: bool, privileges: bool): (n: Option<nat>)
    ensures n.Some? ==> n.value < |u| && u[n.value] == '/'
  {
    if u == "" then None
    else if u[0] == '\"' then
      if quoted && |u| > 1 && u[1] == '\"' then Plus(2, GrantorAt(u[2..], quoted, privileges))
      else Plus(1, GrantorAt(u[1..], !quoted, privileges))
    else if !quoted && u[0] == '=' then Plus(1, GrantorAt(u[1..], quoted, true))
    else if !quoted && privileges && u[0] == '/' then Some(0)
    else Plus(1, GrantorAt(u[1..], quoted, privileges))
  }

  function WithoutGrantor(u: string): string {
    var n := GrantorAt(u, false, false);
    if n.None? then u else u[..n.value]
  }

  lemma {:induction false} GrantorStep(value: string, i: nat, quoted: bool, privileges: bool)
    requires i <= |value|
    ensures
      GrantorAt(value[i..], quoted, privileges) ==
        if i == |value| then None
        else if value[i] == '\"' then
          if quoted && i + 1 < |value| && value[i + 1] == '\"' then
            Plus(2, GrantorAt(value[i + 2..], quoted, privileges))
          else Plus(1, GrantorAt(value[i + 1..], !quoted, privileges))
        else if !quoted && value[i] == '=' then Plus(1, GrantorAt(value[i + 1..], quoted, true))
        else if !quoted && privileges && value[i] == '/' then Some(0)
        else Plus(1, GrantorAt(value[i + 1..], quoted, privileges))
  {
    if i < |value| {
      var u := value[i..];
      assert |u| > 1 ==> u[2..] == value[i + 2..];
      assert u[1..] == value[i + 1..];
    }
  }

  method AclWithoutGrantor(value: string) returns (r: string)
    ensures r == WithoutGrantor(value)
  {
    hide GrantorAt;
    var quoted, privileges, index := false, false, 0;
    assert value[0..] == value;
    while index < |value|
      invariant index <= |value|
      invariant GrantorAt(value, false, false) == Plus(index, GrantorAt(value[index..], quoted, privileges))
      decreases |value| - index
    {
      GrantorStep(value, index, quoted, privileges);
      if value[index] == '\"' {
        if quoted && index + 1 < |value| && value[index + 1] == '\"' {
          index := index + 2;
          continue;
        }
        quoted := !quoted;
      } else if !quoted && value[index] == '=' {
        privileges := true;
      } else if !quoted && privileges && value[index] == '/' {
        return value[..index];
      }
      index := index + 1;
    }
    GrantorStep(value, index, quoted, privileges);
    return value;
  }

  lemma {:induction false} NoGrantorLeft(u: string, quoted: bool, privileges: bool)
    requires GrantorAt(u, quoted, privileges).Some?
    ensures GrantorAt(u[..GrantorAt(u, quoted, privileges).value], quoted, privileges).None?
    decreases |u|
  {
    var n := GrantorAt(u, quoted, privileges).value;
    var w := u[..n];
    if n > 0 {
      assert w[0] == u[0] && w[1..] == u[1..][..n - 1];
      if u[0] == '\"' && quoted && |u| > 1 && u[1] == '\"' {
        assert w[2..] == u[2..][..n - 2] && w[1] == u[1];
        NoGrantorLeft(u[2..], quoted, privileges);
      } else if u[0] == '\"' {
        NoGrantorLeft(u[1..], !quoted, privileges);
        assert |w| > 1 ==> w[1] == u[1];
      } else {
        NoGrantorLeft(u[1..], quoted, privileges || (!quoted && u[0] == '='));
      }
    }
  }

  /** How many double quotes a text has. */
  function Quotes(u: string): nat {
    if u == "" then 0 else (if u[0] == '\"' then 1 else 0) + Quotes(u[1..])
  }

  /** Position `i` of an item is between quotes: doubled ones open and close again. */
  predicate Between(u: string, i: nat, quoted: bool)
    requires i <= |u|
  {
    (Quotes(u[..i]) % 2 == 1) != quoted
  }

  /** The slash at `n` is outside quotes and behind an equals sign outside quotes. */
  predicate IsGrantorSlash(u: string, n: nat, quoted: bool, privileges: bool) {
    && n < |u| && u[n] == '/' && !Between(u, n, quoted)
    && (privileges || exists j :: 0 <= j < n && u[j] == '=' && !Between(u, j, quoted))
  }

  lemma {:induction false} BetweenShifts(u: string, i: nat, quoted: bool)
    requires u != "" && 0 < i <= |u|
    ensures Between(u, i, quoted) == Between(u[1..], i - 1, if u[0] == '\"' then !quoted else quoted)
  {
    assert u[..i][1..] == u[1..][..i - 1];
  }

  lemma {:induction false} SlashShifts(u: string, n: nat, quoted: bool, privileges: bool)
    requires u != "" && n > 0
    ensures
      var q := if u[0] == '\"' then !quoted else quoted;
      IsGrantorSlash(u, n, quoted, privileges) <==>
      IsGrantorSlash(u[1..], n - 1, q, privileges || (u[0] == '=' && !quoted))
  {
    hide Between;
    var q := if u[0] == '\"' then !quoted else quoted;
    BetweenAtStart(u, quoted);
    forall i: nat | 0 < i <= |u|
      ensures Between(u, i, quoted) == Between(u[1..], i - 1, q)
    {
      BetweenShifts(u, i, quoted);
    }
    if n < |u| {
      if j :| 0 <= j < n && u[j] == '=' && !Between(u, j, quoted) {
        assert j > 0 ==> u[1..][j - 1] == '=' && !Between(u[1..], j - 1, q);
      }
      if j :| 0 <= j < n - 1 && u[1..][j] == '=' && !Between(u[1..], j, q) {
        assert u[j + 1] == '=' && Between(u, j + 1, quoted) == Between(u[1..], j + 1 - 1, q);
      }
    }
  }

  lemma BetweenAtStart(u: string, quoted: bool)
    ensures Between(u, 0, quoted) == quoted
  {
  }

  /** The scan stops at the first slash outside quotes behind an equals sign outside quotes, doubled
    * quotes being two toggles. */
  lemma {:induction false} GrantorIsFirstSlash(u: string, quoted: bool, privileges: bool, n: nat)
    ensures
      GrantorAt(u, quoted, privileges) == Some(n) <==>
      && IsGrantorSlash(u, n, quoted, privileges)
      && forall k: nat :: k < n ==> !IsGrantorSlash(u, k, quoted, privileges)
    decreases |u|
  {
    hide GrantorAt, IsGrantorSlash;
    GrantorStep(u, 0, quoted, privileges);
    assert u[0..] == u;
    if u == "" {
      NoSlash(u, n, quoted, privileges);
    } else {
      FirstSlash(u, quoted, privileges);
      var q, p := if u[0] == '\"' then !quoted else quoted, privileges || (u[0] == '=' && !quoted);
      forall k: nat | k > 0
        ensures IsGrantorSlash(u, k, quoted, privileges) <==> IsGrantorSlash(u[1..], k - 1, q, p)
      {
        SlashShifts(u, k, quoted, privileges);
      }
      if n > 0 {
        GrantorIsFirstSlash(u[1..], q, p, n - 1);
        ShiftedFirst(u, n, quoted, privileges, q, p);
      }
      if u[0] == '\"' && quoted && |u| > 1 && u[1] == '\"' {
        DoubledQuote(u, privileges);
      }
    }
  }

  lemma NoSlash(u: string, n: nat, quoted: bool, privileges: bool)
    requires u == ""
    ensures !IsGrantorSlash(u, n, quoted, privileges)
  {
  }

  lemma FirstSlash(u: string, quoted: bool, privileges: bool)
    requires u != ""
    ensures IsGrantorSlash(u, 0, quoted, privileges) <==> u[0] == '/' && !quoted && privileges
  {
    BetweenAtStart(u, quoted);
  }

  lemma ShiftedFirst(u: string, n: nat, quoted: bool, privileges: bool, q: bool, p: bool)
    requires u != "" && n > 0
    requires forall k: nat :: k > 0 ==>
      (IsGrantorSlash(u, k, quoted, privileges) <==> IsGrantorSlash(u[1..], k - 1, q, p))
    ensures
      (&& IsGrantorSlash(u, n, quoted, privileges)
       && forall k: nat :: k < n ==> !IsGrantorSlash(u, k, quoted, privileges)) <==>
      && !IsGrantorSlash(u, 0, quoted, privileges) && IsGrantorSlash(u[1..], n - 1, q, p)
      && forall k: nat :: k < n - 1 ==> !IsGrantorSlash(u[1..], k, q, p)
  {
    hide IsGrantorSlash;
    if forall k: nat :: k < n ==> !IsGrantorSlash(u, k, quoted, privileges) {
      forall k: nat | k < n - 1
        ensures !IsGrantorSlash(u[1..], k, q, p)
      {
        var l := k + 1;
        assert !IsGrantorSlash(u, l, quoted, privileges) && l > 0;
      }
    }
    if !IsGrantorSlash(u, 0, quoted, privileges) && forall k: nat :: k < n - 1 ==> !IsGrantorSlash(u[1..], k, q, p) {
      forall k: nat | k < n
        ensures !IsGrantorSlash(u, k, quoted, privileges)
      {
        if k > 0 {
          assert IsGrantorSlash(u, k, quoted, privileges) <==> IsGrantorSlash(u[1..], k - 1, q, p);
        }
      }
    }
  }

  /** Reading a doubled quote at once or as two toggles comes to the same. */
  lemma {:induction false} DoubledQuote(u: string, privileges: bool)
    requires |u| > 1 && u[0] == '\"' && u[1] == '\"'
    ensures GrantorAt(u[1..], false, privileges) == Plus(1, GrantorAt(u[2..], true, privileges))
  {
    hide GrantorAt;
    GrantorStep(u[1..], 0, false, privileges);
    assert u[1..][0..] == u[1..] && u[1..][1..] == u[2..];
  }

  lemma {:induction false} FirstOfSlashes(u: string, k: nat) returns (n: nat)
    requires IsGrantorSlash(u, k, false, false)
    ensures IsGrantorSlash(u, n, false, false) && forall j: nat :: j < n ==> !IsGrantorSlash(u, j, false, false)
    decreases k
  {
    hide IsGrantorSlash;
    if j: nat :| j < k && IsGrantorSlash(u, j, false, false) {
      n := FirstOfSlashes(u, j);
    } else {
      n := k;
    }
  }

  /** An item is cut at its first grantor slash, and left alone if it has none. */
  lemma GrantorIsCutThere(u: string)
    ensures
      var r := WithoutGrantor(u);
      && r <= u
      && (r != u ==> IsGrantorSlash(u, |r|, false, false))
      && (forall k: nat :: k < |r| ==> !IsGrantorSlash(u, k, false, false))
  {
    hide IsGrantorSlash, GrantorAt;
    var g := GrantorAt(u, false, false);
    if g.Some? {
      GrantorIsFirstSlash(u, false, false, g.value);
    } else if k: nat :| k < |u| && IsGrantorSlash(u, k, false, false) {
      var n := FirstOfSlashes(u, k);
      GrantorIsFirstSlash(u, false, false, n);
    }
  }

  lemma GrantorGoesOnce(u: string)
    ensures WithoutGrantor(WithoutGrantor(u)) == WithoutGrantor(u)
  {
    if GrantorAt(u, false, false).Some? {
      NoGrantorLeft(u, false, false);
    }
  }

  /** A role name as an ACL item prints it: bare, or between quotes with its quotes doubled. */
  datatype Role = Bare(name: string) | Quoted(name: string)

  function Doubled(name: string): string {
    if name == "" then "" else (if name[0] == '\"' then "\"\"" else [name[0]]) + Doubled(name[1..])
  }

  function PrintRole(r: Role): string {
    if r.Bare? then r.name else "\"" + Doubled(r.name) + "\""
  }

  predicate PlainText(s: string, stop: char) {
    forall i :: 0 <= i < |s| ==> s[i] != '\"' && s[i] != stop
  }

  lemma {:induction false} PlainIsSkipped(s: string, x: string, privileges: bool)
    requires PlainText(s, if privileges then '/' else '=')
    ensures GrantorAt(s + x, false, privileges) == Plus(|s|, GrantorAt(x, false, privileges))
  {
    if s == "" {
      assert s + x == x;
    } else {
      assert (s + x)[1..] == s[1..] + x;
      PlainIsSkipped(s[1..], x, privileges);
    }
  }

  /** A quoted name is skipped whole, whatever it contains. */
  lemma {:induction false} QuotedIsSkipped(name: string, x: string)
    requires x != "" && x[0] != '\"'
    ensures GrantorAt(Doubled(name) + "\"" + x, true, false) == Plus(|Doubled(name)| + 1, GrantorAt(x, false, false))
  {
    hide GrantorAt;
    var u := Doubled(name) + "\"" + x;
    GrantorStep(u, 0, true, false);
    assert u[0..] == u;
    if name == "" {
      assert u[0] == '\"' && u[1..] == x && u[1] == x[0];
    } else {
      var front, rest := Doubled(name[..1]), Doubled(name[1..]) + "\"" + x;
      QuotedIsSkipped(name[1..], x);
      DoubledFirst(name);
      assert u == front + rest && u[|front|..] == rest;
      assert u[0] == name[0];
    }
  }

  lemma {:induction false} DoubledFirst(name: string)
    requires name != ""
    ensures Doubled(name) == Doubled(name[..1]) + Doubled(name[1..])
    ensures Doubled(name[..1]) == if name[0] == '\"' then "\"\"" else [name[0]]
  {
    assert name[..1][1..] == "";
  }

  /** An item keeps its grantee and privileges and loses its grantor, whatever the grantor is. */
  lemma GrantorIsRemoved(grantee: Role, privileges: string, grantor: Role)
    requires grantee.Bare? ==> PlainText(grantee.name, '=')
    requires PlainText(privileges, '/')
    ensures
      var kept := PrintRole(grantee) + "=" + privileges;
      WithoutGrantor(kept + "/" + PrintRole(grantor)) == kept
  {
    hide GrantorAt, PrintRole;
    var tail := "/" + PrintRole(grantor);
    var role, x := PrintRole(grantee), "=" + (privileges + tail);
    PrivilegesAreKept(privileges, tail);
    GranteeIsSkipped(grantee, x);
    var kept := role + "=" + privileges;
    var u := kept + "/" + PrintRole(grantor);
    assert u == role + x && u[..|kept|] == kept;
  }

  lemma {:induction false} PrivilegesAreKept(privileges: string, tail: string)
    requires PlainText(privileges, '/') && tail != "" && tail[0] == '/'
    ensures GrantorAt("=" + (privileges + tail), false, false) == Some(1 + |privileges|)
  {
    hide GrantorAt;
    var x := "=" + (privileges + tail);
    GrantorStep(tail, 0, false, true);
    GrantorStep(x, 0, false, false);
    PlainIsSkipped(privileges, tail, true);
    assert tail[0..] == tail && x[0..] == x && x[1..] == privileges + tail;
  }

  lemma {:induction false} GranteeIsSkipped(grantee: Role, x: string)
    requires grantee.Bare? ==> PlainText(grantee.name, '=')
    requires x != "" && x[0] != '\"'
    ensures GrantorAt(PrintRole(grantee) + x, false, false) == Plus(|PrintRole(grantee)|, GrantorAt(x, false, false))
  {
    hide GrantorAt;
    if grantee.Bare? {
      PlainIsSkipped(grantee.name, x, false);
    } else {
      hide Doubled;
      QuotedIsSkipped(grantee.name, x);
      OpeningQuote(Doubled(grantee.name), x);
      assert |PrintRole(grantee)| == 2 + |Doubled(grantee.name)|;
    }
  }

  lemma {:induction false} OpeningQuote(inner: string, x: string)
    ensures
      GrantorAt("\"" + inner + "\"" + x, false, false) == Plus(1, GrantorAt(inner + "\"" + x, true, false))
  {
    hide GrantorAt;
    var u := "\"" + inner + "\"" + x;
    GrantorStep(u, 0, false, false);
    assert u[0..] == u && u[1..] == inner + "\"" + x;
  }

  /** Texts in code-point order. */
  function Sorted(strings: seq<string>): (r: seq<string>)
    ensures multiset(r) == multiset(strings) && |r| == |strings|
  {
    LeIsTotalOrder();
    Sort(strings, Le)
  }

  lemma SortedForgetsOrder(s: seq<string>, t: seq<string>)
    ensures Sorted(s) == Sorted(t) <==> multiset(s) == multiset(t)
  {
    LeIsTotalOrder();
    SortDecidesOrder(s, t, Le);
  }

  /** A canonical list is ascending: of two neighbours, or of any two, the earlier one is a prefix of the
    * later one or smaller at their first difference. */
  lemma SortedIsAscending(strings: seq<string>, i: nat, j: nat)
    requires i < j < |strings|
    ensures
      var s, t := Sorted(strings)[i], Sorted(strings)[j];
      s <= t || exists k :: 0 <= k < |s| && k < |t| && s[..k] == t[..k] && s[k] < t[k]
  {
    LeIsTotalOrder();
    assert Ordered(Sorted(strings), Le);
    LeExactly(Sorted(strings)[i], Sorted(strings)[j]);
  }

  // ---- The canonical form ----

  predicate AllText(items: seq<Json>) {
    forall i :: 0 <= i < |items| ==> items[i].Text?
  }

  function Strings(items: seq<Json>): (r: seq<string>)
    requires AllText(items)
    ensures |r| == |items| && forall i :: 0 <= i < |r| ==> r[i] == items[i].text
  {
    seq(|items|, i requires 0 <= i < |items| => items[i].text)
  }

  function Texts(strings: seq<string>): (r: seq<Json>)
    ensures |r| == |strings| && forall i :: 0 <= i < |r| ==> r[i] == Text(strings[i])
  {
    seq(|strings|, i requires 0 <= i < |strings| => Text(strings[i]))
  }

  /** The text of a list entry; `show` is how the host language renders anything but text. */
  function Shown(show: Json -> string, entry: Json): string {
    if entry.Text? then entry.text else show(entry)
  }

  function AclStrings(show: Json -> string, items: seq<Json>): (r: seq<string>)
    ensures |r| == |items| && forall i :: 0 <= i < |r| ==> r[i] == WithoutGrantor(Shown(show, items[i]))
  {
    seq(|items|, i requires 0 <= i < |items| => WithoutGrantor(Shown(show, items[i])))
  }

  predicate IsAcl(f: Field) {
    f.name == "acl" && f.value.Array?
  }

  function SortIfText(items: seq<Json>): seq<Json> {
    if AllText(items) then Texts(Sorted(Strings(items))) else items
  }

  function Normalize(show: Json -> string, v: Json): (r: Json)
    ensures r.Text? <==> v.Text?
    ensures r.Array? <==> v.Array?
    ensures r.Object? <==> v.Object?
  {
    match v
    case Text(_) => v
    case Other(_) => v
    case Array(items) => Array(SortIfText(seq(|items|, i requires 0 <= i < |items| => Normalize(show, items[i]))))
    case Object(fields) =>
      Object(seq(|fields|, i requires 0 <= i < |fields| =>
        if IsAcl(fields[i]) then Field(fields[i].name, AclValue(show, fields[i].value.items))
        else Field(fields[i].name, Normalize(show, fields[i].value))))
  }

  /** The value of an ACL field. */
  function AclValue(show: Json -> string, items: seq<Json>): Json {
    Array(Texts(Sorted(AclStrings(show, items))))
  }

  /** It is what the canonicaliser makes of the list without grantors. */
  lemma AclIsNormalized(show: Json -> string, items: seq<Json>)
    ensures AclValue(show, items) == Normalize(show, Array(Texts(AclStrings(show, items))))
  {
    var strings := AclStrings(show, items);
    var n := seq(|strings|, i requires 0 <= i < |strings| => Normalize(show, Texts(strings)[i]));
    assert n == Texts(strings) && Strings(n) == strings;
  }

  // ---- What counts as the same catalog ----

  predicate Same(show: Json -> string, v: Json, w: Json)
    decreases v
  {
    match v
    case Text(_) => v == w
    case Other(_) => v == w
    case Array(items) =>
      w.Array? && |w.items| == |items| &&
      if AllText(items) then AllText(w.items) && multiset(Strings(items)) == multiset(Strings(w.items))
      else forall i :: 0 <= i < |items| ==> Same(show, items[i], w.items[i])
    case Object(fields) =>
      w.Object? && |w.fields| == |fields| &&
      forall i :: 0 <= i < |fields| ==>
        && fields[i].name == w.fields[i].name
        && if IsAcl(fields[i]) && IsAcl(w.fields[i]) then
             multiset(AclStrings(show, fields[i].value.items)) == multiset(AclStrings(show, w.fields[i].value.items))
           else Same(show, fields[i].value, w.fields[i].value)
  }

  lemma TextsInjective(s: seq<string>, t: seq<string>)
    ensures Texts(s) == Texts(t) <==> s == t
  {
    if Texts(s) == Texts(t) {
      assert |s| == |t|;
      forall i | 0 <= i < |s|
        ensures s[i] == t[i]
      {
        assert Texts(s)[i] == Texts(t)[i];
      }
    }
  }

  function NormalizedItems(show: Json -> string, items: seq<Json>): (r: seq<Json>)
    ensures |r| == |items| && forall i :: 0 <= i < |r| ==> r[i] == Normalize(show, items[i])
    ensures AllText(r) <==> AllText(items)
    ensures AllText(items) ==> r == items
    ensures Normalize(show, Array(items)) == Array(SortIfText(r))
  {
    var r := seq(|items|, i requires 0 <= i < |items| => Normalize(show, items[i]));
    assert forall i :: 0 <= i < |items| ==> r[i].Text? == items[i].Text?;
    r
  }

  lemma SortedTextsDecided(items: seq<Json>, others: seq<Json>)
    requires AllText(items) && AllText(others)
    ensures SortIfText(items) == SortIfText(others) <==> multiset(Strings(items)) == multiset(Strings(others))
  {
    TextsInjective(Sorted(Strings(items)), Sorted(Strings(others)));
    SortedForgetsOrder(Strings(items), Strings(others));
  }

  lemma MixedArraysDiffer(items: seq<Json>, others: seq<Json>)
    requires AllText(items) != AllText(others)
    ensures SortIfText(items) != SortIfText(others)
  {
    assert AllText(SortIfText(items)) == AllText(items);
    assert AllText(SortIfText(others)) == AllText(others);
  }

  lemma ArraysDecided(show: Json -> string, items: seq<Json>, others: seq<Json>)
    requires
      |items| == |others| ==>
        forall i :: 0 <= i < |items| ==>
          (Normalize(show, items[i]) == Normalize(show, others[i]) <==> Same(show, items[i], others[i]))
    ensures Normalize(show, Array(items)) == Normalize(show, Array(others)) <==> Same(show, Array(items), Array(others))
  {
    var n, m := NormalizedItems(show, items), NormalizedItems(show, others);
    hide Normalize, SortIfText, Strings;
    if AllText(items) && AllText(others) {
      assert |multiset(Strings(items))| == |items| && |multiset(Strings(others))| == |others|;
      SortedTextsDecided(items, others);
    } else if AllText(items) != AllText(others) {
      MixedArraysDiffer(n, m);
      if |items| == |others| && !AllText(items) {
        var i :| 0 <= i < |items| && !items[i].Text?;
        assert !Same(show, items[i], others[i]);
      }
    } else {
      UnsortedArraysDecided(n, m);
    }
  }

  lemma UnsortedArraysDecided(n: seq<Json>, m: seq<Json>)
    requires !AllText(n) && !AllText(m)
    ensures SortIfText(n) == SortIfText(m) <==> |n| == |m| && forall i :: 0 <= i < |n| ==> n[i] == m[i]
  {
  }

  function NormalizedField(show: Json -> string, f: Field): Field {
    Field(f.name, if IsAcl(f) then AclValue(show, f.value.items) else Normalize(show, f.value))
  }

  function NormalizedFields(show: Json -> string, fields: seq<Field>): (r: seq<Field>)
    ensures |r| == |fields| && forall i :: 0 <= i < |r| ==> r[i] == NormalizedField(show, fields[i])
    ensures Normalize(show, Object(fields)) == Object(r)
  {
    hide Normalize, AclValue;
    var r := seq(|fields|, i requires 0 <= i < |fields| => NormalizedField(show, fields[i]));
    FieldsUnfold(show, fields, r);
    r
  }

  lemma FieldsUnfold(show: Json -> string, fields: seq<Field>, r: seq<Field>)
    requires |r| == |fields| && forall i :: 0 <= i < |r| ==> r[i] == NormalizedField(show, fields[i])
    ensures Normalize(show, Object(fields)) == Object(r)
  {
    assert Normalize(show, Object(fields)).fields == r;
  }

  predicate SameField(show: Json -> string, f: Field, g: Field) {
    && f.name == g.name
    && if IsAcl(f) && IsAcl(g) then
         multiset(AclStrings(show, f.value.items)) == multiset(AclStrings(show, g.value.items))
       else Same(show, f.value, g.value)
  }

  lemma FieldDecided(show: Json -> string, f: Field, g: Field)
    requires Normalize(show, f.value) == Normalize(show, g.value) <==> Same(show, f.value, g.value)
    ensures NormalizedField(show, f) == NormalizedField(show, g) <==> SameField(show, f, g)
  {
    if IsAcl(f) && IsAcl(g) {
      hide Normalize, Same;
      var s, t := AclStrings(show, f.value.items), AclStrings(show, g.value.items);
      hide AclStrings;
      TextsInjective(Sorted(s), Sorted(t));
      SortedForgetsOrder(s, t);
    } else if f.name == g.name && f.name == "acl" {
      assert f.value.Array? != g.value.Array? || !f.value.Array?;
    }
  }

  lemma ObjectsDecided(show: Json -> string, fields: seq<Field>, others: seq<Field>)
    requires
      |fields| == |others| ==>
        forall i :: 0 <= i < |fields| ==>
          (Normalize(show, fields[i].value) == Normalize(show, others[i].value) <==>
           Same(show, fields[i].value, others[i].value))
    ensures
      Normalize(show, Object(fields)) == Normalize(show, Object(others)) <==> Same(show, Object(fields), Object(others))
  {
    var n, m := NormalizedFields(show, fields), NormalizedFields(show, others);
    if |fields| == |others| {
      forall i | 0 <= i < |fields|
        ensures n[i] == m[i] <==> SameField(show, fields[i], others[i])
      {
        FieldDecided(show, fields[i], others[i]);
      }
      hide Normalize, NormalizedField, SameField, Same;
      SameObjects(show, fields, others);
      assert n == m <==> forall i :: 0 <= i < |fields| ==> n[i] == m[i];
    }
  }

  lemma SameObjects(show: Json -> string, fields: seq<Field>, others: seq<Field>)
    requires |fields| == |others|
    ensures
      Same(show, Object(fields), Object(others)) <==>
      forall i :: 0 <= i < |fields| ==> SameField(show, fields[i], others[i])
  {
  }

  /** Two documents have the same canonical form exactly when they are the same catalog. */
  lemma {:induction false} CanonicalFormDecidesSame(show: Json -> string, v: Json, w: Json)
    ensures Normalize(show, v) == Normalize(show, w) <==> Same(show, v, w)
    decreases v
  {
    match v
    case Text(_) =>
    case Other(_) =>
    case Array(items) =>
      if w.Array? {
        forall i | 0 <= i < |items| && |items| == |w.items|
          ensures Normalize(show, items[i]) == Normalize(show, w.items[i]) <==> Same(show, items[i], w.items[i])
        {
          CanonicalFormDecidesSame(show, items[i], w.items[i]);
        }
        ArraysDecided(show, items, w.items);
      }
    case Object(fields) =>
      if w.Object? {
        forall i | 0 <= i < |fields| && |fields| == |w.fields|
          ensures
            Normalize(show, fields[i].value) == Normalize(show, w.fields[i].value) <==>
            Same(show, fields[i].value, w.fields[i].value)
        {
          CanonicalFormDecidesSame(show, fields[i].value, w.fields[i].value);
        }
        ObjectsDecided(show, fields, w.fields);
      }
  }

  // ---- Consequences ----

  lemma {:induction false} NormalizedIsSame(show: Json -> string, v: Json)
    ensures Same(show, Normalize(show, v), v)
    decreases v
  {
    match v
    case Text(_) =>
    case Other(_) =>
    case Array(items) =>
      var n := NormalizedItems(show, items);
      forall i | 0 <= i < |items|
        ensures Same(show, n[i], items[i])
      {
        NormalizedIsSame(show, items[i]);
      }
      SortedItemsAreSame(show, n, items);
    case Object(fields) =>
      var n := NormalizedFields(show, fields);
      forall i | 0 <= i < |fields|
        ensures SameField(show, n[i], fields[i])
      {
        NormalizedIsSame(show, fields[i].value);
        NormalizedFieldIsSame(show, fields[i]);
      }
      hide Normalize;
      assert Same(show, Object(n), v) by {
        assert forall i :: 0 <= i < |fields| ==> SameField(show, n[i], fields[i]);
      }
  }

  lemma SortedItemsAreSame(show: Json -> string, n: seq<Json>, items: seq<Json>)
    requires |n| == |items| && (AllText(n) <==> AllText(items)) && (AllText(items) ==> n == items)
    requires forall i :: 0 <= i < |items| ==> Same(show, n[i], items[i])
    ensures Same(show, Array(SortIfText(n)), Array(items))
  {
    if AllText(items) {
      var sorted := Texts(Sorted(Strings(items)));
      assert Strings(sorted) == Sorted(Strings(items));
      assert |multiset(Strings(sorted))| == |sorted| && |multiset(Strings(items))| == |items|;
    }
  }

  /** Removing grantors from a sorted list without grantors changes nothing. */
  lemma SortedAclStays(show: Json -> string, items: seq<Json>)
    ensures
      var sorted := Sorted(AclStrings(show, items));
      AclStrings(show, Texts(sorted)) == sorted
  {
    hide WithoutGrantor, Sorted;
    var strings := AclStrings(show, items);
    var sorted := Sorted(strings);
    var again := AclStrings(show, Texts(sorted));
    forall i | 0 <= i < |sorted|
      ensures again[i] == sorted[i]
    {
      assert sorted[i] in multiset(sorted) && multiset(sorted) == multiset(strings);
      var k :| 0 <= k < |strings| && strings[k] == sorted[i];
      GrantorGoesOnce(Shown(show, items[k]));
    }
  }

  lemma AclFieldIsSame(show: Json -> string, f: Field)
    requires IsAcl(f)
    ensures SameField(show, NormalizedField(show, f), f)
  {
    SortedAclStays(show, f.value.items);
    hide Normalize, Same, AclStrings, Texts;
  }

  lemma OtherFieldIsSame(show: Json -> string, f: Field)
    requires !IsAcl(f) && Same(show, Normalize(show, f.value), f.value)
    ensures SameField(show, NormalizedField(show, f), f)
  {
    hide Normalize, Same;
  }

  lemma NormalizedFieldIsSame(show: Json -> string, f: Field)
    requires Same(show, Normalize(show, f.value), f.value)
    ensures SameField(show, NormalizedField(show, f), f)
  {
    hide Normalize, Same, NormalizedField, SameField;
    if IsAcl(f) {
      AclFieldIsSame(show, f);
    } else {
      OtherFieldIsSame(show, f);
    }
  }

  /** Canonicalising twice is canonicalising once, on every document. */
  lemma {:induction false} CanonicalFormIsIdempotent(show: Json -> string, v: Json)
    ensures Normalize(show, Normalize(show, v)) == Normalize(show, v)
  {
    NormalizedIsSame(show, v);
    CanonicalFormDecidesSame(show, Normalize(show, v), v);
  }

  // ---- Anywhere in a document ----

  /** A document with one value missing, at any depth. */
  datatype Context =
    | Hole
    | InArray(before: seq<Json>, inner: Context, after: seq<Json>)
    | InField(others: seq<Field>, name: string, inner: Context, rest: seq<Field>)

  function Plug(c: Context, v: Json): Json {
    match c
    case Hole => v
    case InArray(before, inner, after) => Array(before + [Plug(inner, v)] + after)
    case InField(others, name, inner, rest) => Object(others + [Field(name, Plug(inner, v))] + rest)
  }

  /** The path to the missing value does not run through an ACL list: the entries of one are
    * rendered as strings, and are not documents to be canonicalised. */
  predicate AvoidsAcl(c: Context, v: Json) {
    match c
    case Hole => true
    case InArray(_, inner, _) => AvoidsAcl(inner, v)
    case InField(_, name, inner, _) => !IsAcl(Field(name, Plug(inner, v))) && AvoidsAcl(inner, v)
  }

  lemma {:induction false} SameAsItself(show: Json -> string, v: Json)
    ensures Same(show, v, v)
  {
    CanonicalFormDecidesSame(show, v, v);
  }

  lemma {:induction false} SameInArray(show: Json -> string, before: seq<Json>, v: Json, w: Json, after: seq<Json>)
    ensures Same(show, Array(before + [v] + after), Array(before + [w] + after)) <==> Same(show, v, w)
  {
    var items, others := before + [v] + after, before + [w] + after;
    var k := |before|;
    assert items[k] == v && others[k] == w;
    if AllText(items) && AllText(others) {
      OneTextDecides(before, v, w, after);
    } else if !AllText(items) {
      forall i | 0 <= i < |items| && i != k
        ensures Same(show, items[i], others[i])
      {
        assert items[i] == others[i];
        SameAsItself(show, items[i]);
      }
    } else {
      assert forall i :: 0 <= i < |items| && i != k ==> items[i] == others[i];
    }
  }

  lemma OneTextDecides(before: seq<Json>, v: Json, w: Json, after: seq<Json>)
    requires AllText(before + [v] + after) && AllText(before + [w] + after)
    ensures multiset(Strings(before + [v] + after)) == multiset(Strings(before + [w] + after)) <==> v == w
  {
    var items, others := before + [v] + after, before + [w] + after;
    var k := |before|;
    assert items[k] == v && others[k] == w;
    var s, t := Strings(items), Strings(others);
    assert t == s[k := w.text];
    assert multiset(t) == multiset(s)[s[k] := multiset(s)[s[k]] - 1] + multiset{w.text};
  }

  lemma SameInField(
    show: Json -> string, others: seq<Field>, name: string, v: Json, w: Json, rest: seq<Field>)
    ensures
      Same(show, Object(others + [Field(name, v)] + rest), Object(others + [Field(name, w)] + rest)) <==>
      SameField(show, Field(name, v), Field(name, w))
  {
    var fields, changed := others + [Field(name, v)] + rest, others + [Field(name, w)] + rest;
    var k := |others|;
    assert fields[k] == Field(name, v) && changed[k] == Field(name, w);
    forall i | 0 <= i < |fields| && i != k
      ensures SameField(show, fields[i], changed[i])
    {
      assert fields[i] == changed[i];
      SameAsItself(show, fields[i].value);
    }
    SameObjects(show, fields, changed);
  }

  lemma {:induction false} SameInContext(show: Json -> string, c: Context, v: Json, w: Json)
    requires AvoidsAcl(c, v)
    ensures Same(show, Plug(c, v), Plug(c, w)) <==> Same(show, v, w)
    decreases c
  {
    match c
    case Hole =>
    case InArray(before, inner, after) =>
      SameInContext(show, inner, v, w);
      SameInArray(show, before, Plug(inner, v), Plug(inner, w), after);
    case InField(others, name, inner, rest) =>
      SameInContext(show, inner, v, w);
      SameInField(show, others, name, Plug(inner, v), Plug(inner, w), rest);
  }

  /** Replacing one value of a document, at any depth outside the ACL lists, keeps the canonical
    * form of the document exactly when it keeps the canonical form of the value. */
  lemma {:induction false} CanonicalFormIsCompositional(show: Json -> string, c: Context, v: Json, w: Json)
    requires AvoidsAcl(c, v)
    ensures Normalize(show, Plug(c, v)) == Normalize(show, Plug(c, w)) <==> Normalize(show, v) == Normalize(show, w)
  {
    SameInContext(show, c, v, w);
    CanonicalFormDecidesSame(show, v, w);
    CanonicalFormDecidesSame(show, Plug(c, v), Plug(c, w));
  }

  /** Two all-string arrays can be exchanged anywhere in a document exactly when one is a
    * permutation of the other. */
  lemma {:induction false} OrderDoesNotMatter(show: Json -> string, c: Context, items: seq<Json>, others: seq<Json>)
    requires AllText(items) && AllText(others) && AvoidsAcl(c, Array(items))
    ensures
      Normalize(show, Plug(c, Array(items))) == Normalize(show, Plug(c, Array(others))) <==>
      multiset(Strings(items)) == multiset(Strings(others))
  {
    assert |multiset(Strings(items))| == |items| && |multiset(Strings(others))| == |others|;
    CanonicalFormIsCompositional(show, c, Array(items), Array(others));
    CanonicalFormDecidesSame(show, Array(items), Array(others));
  }

  /** The canonical form of an all-string array is the ascending array of its strings. */
  lemma CanonicalArrayIsAscending(show: Json -> string, items: seq<Json>)
    requires AllText(items)
    ensures
      var r := Normalize(show, Array(items)).items;
      && AllText(r) && multiset(Strings(r)) == multiset(Strings(items))
      && forall i, j :: 0 <= i < j < |r| ==>
           r[i].text <= r[j].text ||
           exists k :: 0 <= k < |r[i].text| && k < |r[j].text| && r[i].text[..k] == r[j].text[..k]
                       && r[i].text[k] < r[j].text[k]
  {
    var n := NormalizedItems(show, items);
    var sorted := Sorted(Strings(items));
    assert Strings(Texts(sorted)) == sorted;
    forall i, j | 0 <= i < j < |sorted|
      ensures sorted[i] <= sorted[j] ||
              exists k :: 0 <= k < |sorted[i]| && k < |sorted[j]| && sorted[i][..k] == sorted[j][..k]
                          && sorted[i][k] < sorted[j][k]
    {
      SortedIsAscending(Strings(items), i, j);
    }
  }

  /** Two ACL lists can be exchanged anywhere in a document exactly when, without their grantors,
    * one is a permutation of the other. */
  lemma {:induction false} OrderAndGrantorsDoNotMatter(
    show: Json -> string, c: Context, before: seq<Field>, items: seq<Json>, others: seq<Json>, after: seq<Field>)
    requires AvoidsAcl(c, Object(before + [Field("acl", Array(items))] + after))
    ensures
      Normalize(show, Plug(c, Object(before + [Field("acl", Array(items))] + after))) ==
      Normalize(show, Plug(c, Object(before + [Field("acl", Array(others))] + after))) <==>
      multiset(AclStrings(show, items)) == multiset(AclStrings(show, others))
  {
    var v := Object(before + [Field("acl", Array(items))] + after);
    var w := Object(before + [Field("acl", Array(others))] + after);
    CanonicalFormIsCompositional(show, c, v, w);
    SameInField(show, before, "acl", Array(items), Array(others), after);
    CanonicalFormDecidesSame(show, v, w);
  }
}
