/** The scope map of an API key: what normalising it on save and load drops, and
    that it neither adds nor takes a grant of a known action. The action catalogue
    and which of its actions only read are parameters. */
module ApiKeyScopes {
  import opened Sorting
  import Text

  datatype Json =
    | Null | Bool(flag: bool) | Num(number: real) | Str(text: string)
    | Arr(items: seq<Json>) | Obj(fields: map<string, Json>)

  datatype Catalog = Catalog(
    actions: set<string>, isRead: string -> bool,
    denied: set<string>, writeDenied: set<string>, levelExcluded: set<string>)

  const READ := Str("read")
  const WRITE := Str("write")

  /** What stands before the first colon. */
  function NamespaceOf(action: string): string {
    var i := Text.IndexOf(action, ':');
    if 0 < i < |action| then action[..i] else ""
  }

  /** The actions of a namespace a key can be granted. */
  function Grantable(c: Catalog, ns: string): set<string> {
    set a | a in c.actions && NamespaceOf(a) == ns && ns != "" && ns !in c.denied
      && (c.isRead(a) || ns !in c.writeDenied)
  }

  predicate HasWrites(c: Catalog, ns: string) { exists a :: a in Grantable(c, ns) && !c.isRead(a) }

  /** Array.prototype.sort without a comparator: by character codes. */
  predicate TextOrder(a: Json, b: Json) {
    if a.Str? && b.Str? then AtMost(a.text, b.text) else !a.Str? || b.Str?
  }

  predicate AtMost(a: string, b: string) {
    if a == "" then true
    else if b == "" then false
    else if a[0] != b[0] then a[0] < b[0]
    else AtMost(a[1..], b[1..])
  }

  /** The grantable names of a list, each once. */
  function Kept(c: Catalog, ns: string, items: seq<Json>): (r: seq<Json>)
    ensures forall x :: x in r <==> x in items && x.Str? && x.text in Grantable(c, ns)
  {
    if items == [] then []
    else
      var front, last := Kept(c, ns, items[..|items| - 1]), items[|items| - 1];
      if last.Str? && last.text in Grantable(c, ns) && last !in front then front + [last] else front
  }

  /** What a scope value is stored as: a list of known actions, a level, or nothing. */
  function ScopeValue(c: Catalog, ns: string, value: Json): Json {
    if value.Arr? then
      var actions := Sort(TextOrder, Kept(c, ns, value.items));
      if actions == [] then Null else Arr(actions)
    else if value != READ && value != WRITE then Null
    else if value == WRITE && !HasWrites(c, ns) then READ
    else value
  }

  /** normalizeScopes. */
  function NormalizeScopes(c: Catalog, input: Json): Json {
    if !input.Obj? then Obj(map[])
    else Obj(map ns | ns in input.fields && Grantable(c, ns) != {} && ScopeValue(c, ns, input.fields[ns]) != Null
      :: ScopeValue(c, ns, input.fields[ns]))
  }

  // ---- normalising twice is normalising once ----

  lemma {:induction false} AtMostTotal(a: string, b: string)
    ensures AtMost(a, b) || AtMost(b, a)
  {
    if a != "" && b != "" && a[0] == b[0] { AtMostTotal(a[1..], b[1..]); }
  }

  lemma TextOrderTotal()
    ensures Total(TextOrder)
  {
    forall a: Json, b: Json ensures TextOrder(a, b) || TextOrder(b, a) {
      if a.Str? && b.Str? { AtMostTotal(a.text, b.text); }
    }
  }

  ghost predicate Once(s: seq<Json>) { forall i, j :: 0 <= i < j < |s| ==> s[i] != s[j] }

  lemma {:induction false} KeptOnce(c: Catalog, ns: string, items: seq<Json>)
    ensures Once(Kept(c, ns, items))
  {
    if items != [] { KeptOnce(c, ns, items[..|items| - 1]); }
  }

  /** A list of grantable names, each once, is kept as it is. */
  lemma {:induction false} KeptFixed(c: Catalog, ns: string, s: seq<Json>)
    requires Once(s) && forall i :: 0 <= i < |s| ==> s[i].Str? && s[i].text in Grantable(c, ns)
    ensures Kept(c, ns, s) == s
  {
    if s != [] {
      var front, last := s[..|s| - 1], s[|s| - 1];
      KeptFixed(c, ns, front);
      assert s == front + [last];
    }
  }

  lemma {:induction false} OncePermuted(s: seq<Json>)
    requires Once(s)
    ensures Once(Sort(TextOrder, s))
  {
    if s != [] {
      var front, last := s[..|s| - 1], s[|s| - 1];
      OncePermuted(front);
      SortMembers(TextOrder, front);
      var sorted := Sort(TextOrder, front);
      var k := InsertSplit(TextOrder, sorted, last);
      assert last !in front && last !in sorted;
      var r := sorted[..k] + [last] + sorted[k..];
      forall i, j | 0 <= i < j < |r| ensures r[i] != r[j] {
        assert r[i] == if i < k then sorted[i] else if i == k then last else sorted[i - 1];
        assert r[j] == if j < k then sorted[j] else if j == k then last else sorted[j - 1];
      }
    }
  }

  lemma ScopeValueTwice(c: Catalog, ns: string, value: Json)
    ensures ScopeValue(c, ns, ScopeValue(c, ns, value)) == ScopeValue(c, ns, value)
  {
    if value.Arr? {
      var kept := Kept(c, ns, value.items);
      var actions := Sort(TextOrder, kept);
      KeptOnce(c, ns, value.items);
      OncePermuted(kept);
      SortMembers(TextOrder, kept);
      KeptFixed(c, ns, actions);
      TextOrderTotal();
      SortAscending(TextOrder, kept);
      SortFixed(TextOrder, actions);
    }
  }

  /** What a reload normalises is what the save stored. */
  lemma NormalizeTwice(c: Catalog, input: Json)
    ensures NormalizeScopes(c, NormalizeScopes(c, input)) == NormalizeScopes(c, input)
  {
    if input.Obj? {
      forall ns | ns in input.fields {
        ScopeValueTwice(c, ns, input.fields[ns]);
      }
      var once := NormalizeScopes(c, input).fields;
      assert NormalizeScopes(c, Obj(once)).fields == once;
    }
  }

  // ---- what a key allows ----

  /** scopeAllowsAction; a missing value is Null. */
  predicate ScopeAllows(c: Catalog, ns: string, value: Json, action: string) {
    if value.Arr? then Str(action) in value.items && (ns !in c.writeDenied || c.isRead(action))
    else if value != READ && value != WRITE then false
    else if action in c.levelExcluded then false
    else (value == WRITE && ns !in c.writeDenied) || c.isRead(action)
  }

  /** keyAllows for a stored scope map. */
  predicate KeyAllows(c: Catalog, scopes: Json, action: string) {
    var ns := NamespaceOf(action);
    ns != "" && ns !in c.denied && scopes.Obj?
    && ScopeAllows(c, ns, if ns in scopes.fields then scopes.fields[ns] else Null, action)
  }

  lemma ScopeValueAllows(c: Catalog, ns: string, value: Json, action: string)
    requires action in Grantable(c, ns)
    ensures ScopeAllows(c, ns, ScopeValue(c, ns, value), action) <==> ScopeAllows(c, ns, value, action)
  {
    if value.Arr? {
      SortMembers(TextOrder, Kept(c, ns, value.items));
      assert Str(action) in Kept(c, ns, value.items) <==> Str(action) in value.items;
      var actions := Sort(TextOrder, Kept(c, ns, value.items));
      assert Str(action) in actions <==> Str(action) in value.items;
    }
  }

  /** Normalising a scope map keeps every decision about a grantable action, and
      afterwards a list grants nothing but grantable actions. */
  lemma NormalizeKeepsGrants(c: Catalog, input: Json, action: string)
    requires action in Grantable(c, NamespaceOf(action))
    ensures KeyAllows(c, NormalizeScopes(c, input), action) <==> KeyAllows(c, input, action)
  {
    var ns := NamespaceOf(action);
    if input.Obj? && ns in input.fields {
      ScopeValueAllows(c, ns, input.fields[ns], action);
    }
  }

  /** An action belongs to the namespace in front of its first colon, if any. */
  lemma NamespaceExactly(ns: string, action: string)
    requires ns != "" && ':' !in ns
    ensures NamespaceOf(action) == ns <==> ns + ":" <= action
  {
    var i := Text.IndexOf(action, ':');
    if ns + ":" <= action {
      assert action[|ns|] == (ns + ":")[|ns|] == ':';
      assert forall j :: 0 <= j < |ns| ==> action[j] == (ns + ":")[j] == ns[j];
      assert i == |ns|;
    }
  }

  lemma NamespaceText(action: string)
    ensures ':' !in NamespaceOf(action)
  {
  }

  /** A catalogued action of the namespace that a key can be granted. */
  predicate Offered(c: Catalog, ns: string, action: string) {
    action in c.actions && ns + ":" <= action && ns !in c.denied && (c.isRead(action) || ns !in c.writeDenied)
  }

  lemma OfferedExactly(c: Catalog, ns: string, action: string)
    requires ns != "" && ':' !in ns
    ensures action in Grantable(c, ns) <==> Offered(c, ns, action)
  {
    NamespaceExactly(ns, action);
  }

  /** What normalising stores under a namespace: of a list the offered actions, each
      once and in order, and nothing when none is left; a level as it is, but "read"
      for "write" where nothing offered writes; of anything else nothing. */
  lemma NormalizeStores(c: Catalog, input: Json, ns: string)
    requires input.Obj? && ns in input.fields && ns != "" && ':' !in ns
    ensures var out, v := NormalizeScopes(c, input).fields, input.fields[ns];
            if v.Arr? then
              (ns in out <==> exists a :: Str(a) in v.items && Offered(c, ns, a)) &&
              (ns in out ==> out[ns].Arr? && Once(out[ns].items) && Ascending(TextOrder, out[ns].items)) &&
              (ns in out ==> forall x :: x in out[ns].items <==> x in v.items && x.Str? && Offered(c, ns, x.text))
            else
              (ns in out <==> (v == Str("read") || v == Str("write")) && exists a :: Offered(c, ns, a)) &&
              (ns in out ==>
                out[ns] == if v == Str("write") && exists a :: Offered(c, ns, a) && !c.isRead(a) then v
                           else Str("read"))
  {
    hide NamespaceOf, Offered;
    var v := input.fields[ns];
    forall a ensures a in Grantable(c, ns) <==> Offered(c, ns, a) { OfferedExactly(c, ns, a); }
    if v.Arr? {
      var kept := Kept(c, ns, v.items);
      KeptOnce(c, ns, v.items);
      OncePermuted(kept);
      SortMembers(TextOrder, kept);
      TextOrderTotal();
      SortAscending(TextOrder, kept);
      if kept != [] { assert Sort(TextOrder, kept)[0] in kept; }
      if a :| Str(a) in v.items && Offered(c, ns, a) {
        assert Str(a) in kept;
      }
    }
  }

  /** What a key may do, from the value stored under the namespace alone: a listed
      action, unless it writes where writing is denied; under a level any reading
      action that levels may grant; under "write" the writing ones too, unless
      writing is denied there. */
  lemma AllowsExactly(c: Catalog, scopes: Json, ns: string, action: string)
    requires ns != "" && ':' !in ns && ns + ":" <= action
    ensures KeyAllows(c, scopes, action) <==>
            ns !in c.denied && scopes.Obj? && ns in scopes.fields &&
            var v := scopes.fields[ns];
            (v.Arr? && Str(action) in v.items && (c.isRead(action) || ns !in c.writeDenied)) ||
            ((v == Str("read") || v == Str("write")) && action !in c.levelExcluded && c.isRead(action)) ||
            (v == Str("write") && action !in c.levelExcluded && ns !in c.writeDenied)
  {
    NamespaceExactly(ns, action);
  }

  /** A "read" level never grants a writing action, and an action without a
      namespace is granted by nothing. */
  lemma ReadNeverWrites(c: Catalog, scopes: Json, ns: string, action: string)
    requires ns != "" && ':' !in ns && scopes.Obj? && ns in scopes.fields && scopes.fields[ns] == Str("read")
    ensures ns + ":" <= action && !c.isRead(action) ==> !KeyAllows(c, scopes, action)
    ensures (forall name :: name != "" && ':' !in name ==> !(name + ":" <= action)) ==> !KeyAllows(c, scopes, action)
  {
    if ns + ":" <= action { AllowsExactly(c, scopes, ns, action); }
    var own := NamespaceOf(action);
    NamespaceText(action);
    if own != "" { NamespaceExactly(own, action); }
  }

  /** No scope map, normalised or written by hand, reaches a denied namespace, or a
      write action of a write-denied one. */
  lemma DeniedStaysDenied(c: Catalog, scopes: Json, action: string)
    requires NamespaceOf(action) in c.denied || (NamespaceOf(action) in c.writeDenied && !c.isRead(action))
    ensures !KeyAllows(c, scopes, action)
  {
  }
}
