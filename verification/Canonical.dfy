/** Canonical JSON: the bounded value tree, its key order, and the text it prints as. */
module Canonical {
  import opened Outcomes
  import opened Texts
  import opened Json

  const MAX_SAFE_INTEGER: int := 9_007_199_254_740_991
  const MAX_STRING: nat := 2_048
  const MAX_ITEMS: nat := 256
  const MAX_MEMBERS: nat := 64

  /** The sensitive-text expression, as an arbitrary predicate on strings. */
  type Sensitive = Text -> bool

  predicate IsSafeInteger(n: int) { -MAX_SAFE_INTEGER <= n <= MAX_SAFE_INTEGER }

  /** Field names: a letter, then at most 63 letters and digits. */
  predicate IsFieldName(k: Text)
  {
    1 <= |k| <= 64 && IsLetter(k[0]) && forall i :: 1 <= i < |k| ==> IsLetter(k[i]) || IsDigit(k[i])
  }

  // ----- key order -----

  /** JavaScript's `<` on strings: code unit by code unit. */
  predicate Before(a: Text, b: Text)
  {
    b != [] && (a == [] || a[0] < b[0] || (a[0] == b[0] && Before(a[1..], b[1..])))
  }

  lemma {:induction false} BeforeIsStrict(a: Text, b: Text)
    ensures !(Before(a, b) && Before(b, a)) && !Before(a, a)
    ensures Before(a, b) || Before(b, a) || a == b
  {
    if a != [] && b != [] && a[0] == b[0] {
      BeforeIsStrict(a[1..], b[1..]);
      assert a == [a[0]] + a[1..] && b == [b[0]] + b[1..];
    }
    if a != [] {
      BeforeIsStrict(a[1..], a[1..]);
    }
  }

  lemma {:induction false} BeforeIsTransitive(a: Text, b: Text, c: Text)
    requires Before(a, b) && Before(b, c)
    ensures Before(a, c)
  {
    if a != [] && a[0] == b[0] == c[0] {
      BeforeIsTransitive(a[1..], b[1..], c[1..]);
    }
  }

  predicate Sorted(ms: seq<Member>)
  {
    forall i, j :: 0 <= i < j < |ms| ==> Before(ms[i].key, ms[j].key)
  }

  function Insert(m: Member, ms: seq<Member>): (r: seq<Member>)
    ensures |r| == |ms| + 1
    ensures forall x :: x in r <==> x == m || x in ms
  {
    if ms == [] then [m]
    else if Before(ms[0].key, m.key) then [ms[0]] + Insert(m, ms[1..])
    else [m] + ms
  }

  /** The entries in key order. */
  function Sort(ms: seq<Member>): (r: seq<Member>)
    ensures |r| == |ms|
    ensures forall x :: x in r <==> x in ms
  {
    if ms == [] then [] else Insert(ms[0], Sort(ms[1..]))
  }

  lemma {:induction false} InsertSorted(m: Member, ms: seq<Member>)
    requires Sorted(ms) && forall x :: x in ms ==> x.key != m.key
    ensures Sorted(Insert(m, ms))
  {
    if ms != [] {
      BeforeIsStrict(ms[0].key, m.key);
      if Before(ms[0].key, m.key) {
        InsertSorted(m, ms[1..]);
        var tail := Insert(m, ms[1..]);
        forall j | 0 <= j < |tail| ensures Before(ms[0].key, tail[j].key) {
          assert tail[j] in tail;
        }
      } else {
        forall j | 0 <= j < |ms| ensures Before(m.key, ms[j].key) {
          if j > 0 {
            BeforeIsTransitive(m.key, ms[0].key, ms[j].key);
          }
        }
      }
    }
  }

  lemma {:induction false} SortSorted(ms: seq<Member>)
    requires DistinctKeys(ms)
    ensures Sorted(Sort(ms))
  {
    if ms != [] {
      SortSorted(ms[1..]);
      InsertSorted(ms[0], Sort(ms[1..]));
    }
  }

  lemma {:induction false} EmptyTogether(a: seq<Member>, b: seq<Member>)
    requires forall x :: x in a <==> x in b
    ensures a == [] <==> b == []
  {
    if a != [] {
      assert a[0] in a;
    }
    if b != [] {
      assert b[0] in b;
    }
  }

  /** Key order leaves one arrangement of a set of entries. */
  lemma {:induction false} SortedIsUnique(a: seq<Member>, b: seq<Member>)
    requires Sorted(a) && Sorted(b) && forall x :: x in a <==> x in b
    ensures a == b
  {
    EmptyTogether(a, b);
    if a != [] {
      assert a[0] in b;
      assert b[0] in a;
      var i :| 0 <= i < |b| && b[i] == a[0];
      var j :| 0 <= j < |a| && a[j] == b[0];
      BeforeIsStrict(a[0].key, b[0].key);
      assert a[0] == b[0];
      forall x ensures x in a[1..] <==> x in b[1..] {
        HeadOnce(a, x);
        HeadOnce(b, x);
      }
      SortedIsUnique(a[1..], b[1..]);
    }
  }

  lemma {:induction false} HeadOnce(a: seq<Member>, x: Member)
    requires a != [] && Sorted(a)
    ensures x in a[1..] <==> x in a && x != a[0]
  {
    BeforeIsStrict(a[0].key, a[0].key);
    assert a == [a[0]] + a[1..];
  }

  lemma {:induction false} SortedHasDistinctKeys(ms: seq<Member>)
    requires Sorted(ms)
    ensures DistinctKeys(ms)
  {
    forall i, j | 0 <= i < j < |ms| ensures ms[i].key != ms[j].key {
      BeforeIsStrict(ms[i].key, ms[j].key);
    }
  }

  lemma {:induction false} SortLeavesSorted(ms: seq<Member>)
    requires Sorted(ms)
    ensures Sort(ms) == ms
  {
    SortedHasDistinctKeys(ms);
    SortSorted(ms);
    SortedIsUnique(Sort(ms), ms);
  }

  // ----- canonicalize -----

  /** The tree with every object's entries in key order, or a denial. */
  function Canonicalize(sensitive: Sensitive, v: Json): (r: Option<Json>)
    decreases v, 1
  {
    match v
    case Null => Some(v)
    case Bool(_) => Some(v)
    case String(s) => if |s| > MAX_STRING || sensitive(s) then None else Some(v)
    case Integer(n) => if IsSafeInteger(n) then Some(v) else None
    case NonInteger => None
    case Array(items) =>
      if |items| > MAX_ITEMS then None
      else
        (match CanonicalizeItems(sensitive, items)
         case None => None
         case Some(cs) => Some(Array(cs)))
    case Object(ms) =>
      if |ms| > MAX_MEMBERS then None
      else
        (match CanonicalizeMembers(sensitive, ms)
         case None => None
         case Some(cs) => Some(Object(Sort(cs))))
  }

  function CanonicalizeItems(sensitive: Sensitive, items: seq<Json>): (r: Option<seq<Json>>)
    ensures r.Some? ==> |r.value| == |items|
    decreases items, 0
  {
    if items == [] then Some([])
    else
      match (Canonicalize(sensitive, items[0]), CanonicalizeItems(sensitive, items[1..]))
      case (Some(c), Some(cs)) => Some([c] + cs)
      case _ => None
  }

  function CanonicalizeMembers(sensitive: Sensitive, ms: seq<Member>): (r: Option<seq<Member>>)
    ensures r.Some? ==> |r.value| == |ms|
    decreases ms, 0
  {
    if ms == [] then Some([])
    else if !IsFieldName(ms[0].key) || sensitive(ms[0].key) then None
    else
      match (Canonicalize(sensitive, ms[0].value), CanonicalizeMembers(sensitive, ms[1..]))
      case (Some(c), Some(cs)) => Some([Member(ms[0].key, c)] + cs)
      case _ => None
  }

  function CanonicalJson(sensitive: Sensitive, v: Json): (t: Option<Text>)
  {
    match Canonicalize(sensitive, v)
    case None => None
    case Some(c) => Some(Print(c))
  }

  // ----- element by element -----

  lemma {:induction false} ItemsPointwise(sensitive: Sensitive, items: seq<Json>)
    ensures CanonicalizeItems(sensitive, items).Some? <==>
            forall i :: 0 <= i < |items| ==> Canonicalize(sensitive, items[i]).Some?
    ensures CanonicalizeItems(sensitive, items).Some? ==>
              forall i :: 0 <= i < |items| ==>
                Canonicalize(sensitive, items[i]) == Some(CanonicalizeItems(sensitive, items).value[i])
  {
    if items != [] {
      ItemsPointwise(sensitive, items[1..]);
      assert forall i :: 1 <= i < |items| ==> items[i] == items[1..][i - 1];
      if CanonicalizeItems(sensitive, items[1..]).Some? && Canonicalize(sensitive, items[0]).Some? {
        var cs := CanonicalizeItems(sensitive, items).value;
        assert forall i :: 1 <= i < |items| ==> cs[i] == CanonicalizeItems(sensitive, items[1..]).value[i - 1];
      }
    }
  }

  predicate MemberAllowed(sensitive: Sensitive, m: Member)
  {
    IsFieldName(m.key) && !sensitive(m.key) && Canonicalize(sensitive, m.value).Some?
  }

  lemma {:induction false} MembersPointwise(sensitive: Sensitive, ms: seq<Member>)
    ensures CanonicalizeMembers(sensitive, ms).Some? <==>
            forall i :: 0 <= i < |ms| ==> MemberAllowed(sensitive, ms[i])
    ensures CanonicalizeMembers(sensitive, ms).Some? ==>
              forall i :: 0 <= i < |ms| ==>
                var c := CanonicalizeMembers(sensitive, ms).value[i];
                c.key == ms[i].key && Canonicalize(sensitive, ms[i].value) == Some(c.value)
  {
    if ms != [] {
      MembersPointwise(sensitive, ms[1..]);
      assert forall i :: 1 <= i < |ms| ==> ms[i] == ms[1..][i - 1];
      if CanonicalizeMembers(sensitive, ms[1..]).Some? && MemberAllowed(sensitive, ms[0]) {
        var cs := CanonicalizeMembers(sensitive, ms).value;
        assert forall i :: 1 <= i < |ms| ==> cs[i] == CanonicalizeMembers(sensitive, ms[1..]).value[i - 1];
      }
    }
  }

  // ----- what canonical trees are -----

  /** No object holds a key twice: what every JavaScript value satisfies. */
  ghost predicate WellKeyed(v: Json)
  {
    match v
    case Array(items) => forall i :: 0 <= i < |items| ==> WellKeyed(items[i])
    case Object(ms) => DistinctKeys(ms) && forall i :: 0 <= i < |ms| ==> WellKeyed(ms[i].value)
    case _ => true
  }

  /** The trees canonicalization leaves alone, said without running it. */
  ghost predicate IsCanonical(sensitive: Sensitive, v: Json)
  {
    match v
    case Null => true
    case Bool(_) => true
    case String(s) => |s| <= MAX_STRING && !sensitive(s)
    case Integer(n) => IsSafeInteger(n)
    case NonInteger => false
    case Array(items) => |items| <= MAX_ITEMS && forall i :: 0 <= i < |items| ==> IsCanonical(sensitive, items[i])
    case Object(ms) =>
      |ms| <= MAX_MEMBERS && Sorted(ms) &&
      forall i :: 0 <= i < |ms| ==>
        IsFieldName(ms[i].key) && !sensitive(ms[i].key) && IsCanonical(sensitive, ms[i].value)
  }

  lemma {:induction false} CanonicalIsPlain(sensitive: Sensitive, v: Json)
    requires IsCanonical(sensitive, v)
    ensures Plain(v) && WellKeyed(v)
  {
    match v {
      case Array(items) =>
        forall i | 0 <= i < |items| ensures Plain(items[i]) && WellKeyed(items[i]) {
          CanonicalIsPlain(sensitive, items[i]);
        }
      case Object(ms) =>
        SortedHasDistinctKeys(ms);
        forall i | 0 <= i < |ms| ensures Plain(ms[i].value) && WellKeyed(ms[i].value) {
          CanonicalIsPlain(sensitive, ms[i].value);
        }
      case _ =>
    }
  }

  lemma {:induction false} CanonicalizeYieldsCanonical(sensitive: Sensitive, v: Json)
    requires WellKeyed(v) && Canonicalize(sensitive, v).Some?
    ensures IsCanonical(sensitive, Canonicalize(sensitive, v).value)
  {
    match v {
      case Array(items) =>
        ItemsPointwise(sensitive, items);
        var cs := CanonicalizeItems(sensitive, items).value;
        forall i | 0 <= i < |cs| ensures IsCanonical(sensitive, cs[i]) {
          CanonicalizeYieldsCanonical(sensitive, items[i]);
        }
      case Object(ms) =>
        MembersPointwise(sensitive, ms);
        var cs := CanonicalizeMembers(sensitive, ms).value;
        SortSorted(cs);
        forall i | 0 <= i < |cs|
          ensures IsFieldName(cs[i].key) && !sensitive(cs[i].key) && IsCanonical(sensitive, cs[i].value)
        {
          assert MemberAllowed(sensitive, ms[i]);
          CanonicalizeYieldsCanonical(sensitive, ms[i].value);
        }
        var sorted := Sort(cs);
        forall j | 0 <= j < |sorted|
          ensures IsFieldName(sorted[j].key) && !sensitive(sorted[j].key) && IsCanonical(sensitive, sorted[j].value)
        {
          assert sorted[j] in sorted;
          assert sorted[j] in cs;
        }
      case _ =>
    }
  }

  lemma {:induction false} CanonicalIsFixed(sensitive: Sensitive, v: Json)
    requires IsCanonical(sensitive, v)
    ensures Canonicalize(sensitive, v) == Some(v)
  {
    match v {
      case Array(items) =>
        forall i | 0 <= i < |items| ensures Canonicalize(sensitive, items[i]) == Some(items[i]) {
          CanonicalIsFixed(sensitive, items[i]);
        }
        ItemsPointwise(sensitive, items);
        assert CanonicalizeItems(sensitive, items).value == items;
      case Object(ms) =>
        forall i | 0 <= i < |ms|
          ensures MemberAllowed(sensitive, ms[i]) && Canonicalize(sensitive, ms[i].value) == Some(ms[i].value)
        {
          CanonicalIsFixed(sensitive, ms[i].value);
        }
        MembersPointwise(sensitive, ms);
        assert CanonicalizeMembers(sensitive, ms).value == ms;
        SortLeavesSorted(ms);
      case _ =>
    }
  }

  /** Canonicalization is idempotent, and its fixed points are exactly the canonical trees. */
  lemma {:induction false} CanonicalizeIsIdempotent(sensitive: Sensitive, v: Json)
    requires WellKeyed(v)
    ensures Canonicalize(sensitive, v).Some? ==>
              Canonicalize(sensitive, Canonicalize(sensitive, v).value) == Canonicalize(sensitive, v)
    ensures Canonicalize(sensitive, v) == Some(v) <==> IsCanonical(sensitive, v)
  {
    if Canonicalize(sensitive, v).Some? {
      CanonicalizeYieldsCanonical(sensitive, v);
      CanonicalIsFixed(sensitive, Canonicalize(sensitive, v).value);
    }
    if IsCanonical(sensitive, v) {
      CanonicalIsFixed(sensitive, v);
    }
  }

  // ----- equality up to key order -----

  ghost predicate Same(v: Json, w: Json)
  {
    match (v, w)
    case (Array(a), Array(b)) => |a| == |b| && forall i :: 0 <= i < |a| ==> Same(a[i], b[i])
    case (Object(a), Object(b)) =>
      && (forall i :: 0 <= i < |a| ==> Find(b, a[i].key).Some? && Same(a[i].value, Find(b, a[i].key).value))
      && (forall j :: 0 <= j < |b| ==> Find(a, b[j].key).Some?)
    case _ => v == w
  }

  lemma {:induction false} FindPlace(ms: seq<Member>, key: Text) returns (j: nat)
    requires Find(ms, key).Some?
    ensures j < |ms| && ms[j] == Member(key, Find(ms, key).value)
  {
    if ms[0].key == key {
      j := 0;
    } else {
      j := FindPlace(ms[1..], key);
      j := j + 1;
    }
  }

  lemma {:induction false} FindAt(ms: seq<Member>, j: nat)
    requires DistinctKeys(ms) && j < |ms|
    ensures Find(ms, ms[j].key) == Some(ms[j].value)
  {
    if j > 0 {
      assert ms[0].key != ms[j].key;
      FindAt(ms[1..], j - 1);
    }
  }

  lemma {:induction false} SameItems(sensitive: Sensitive, a: seq<Json>, b: seq<Json>)
    requires |a| == |b|
    requires CanonicalizeItems(sensitive, a).Some? && CanonicalizeItems(sensitive, b).Some?
    requires forall i :: 0 <= i < |a| ==> WellKeyed(a[i]) && WellKeyed(b[i])
    ensures (forall i :: 0 <= i < |a| ==> Same(a[i], b[i])) <==>
            CanonicalizeItems(sensitive, a) == CanonicalizeItems(sensitive, b)
    decreases a, 0
  {
    ItemsPointwise(sensitive, a);
    ItemsPointwise(sensitive, b);
    var ca, cb := CanonicalizeItems(sensitive, a).value, CanonicalizeItems(sensitive, b).value;
    forall i | 0 <= i < |a| ensures Same(a[i], b[i]) <==> ca[i] == cb[i] { SameCanonical(sensitive, a[i], b[i]); }
    if forall i :: 0 <= i < |a| ==> Same(a[i], b[i]) {
      assert ca == cb;
    }
  }

  /** Entries match up to key order exactly when their canonical forms are the same entries. */
  lemma {:induction false} SameMembers(sensitive: Sensitive, a: seq<Member>, b: seq<Member>)
    requires CanonicalizeMembers(sensitive, a).Some? && CanonicalizeMembers(sensitive, b).Some?
    requires forall i :: 0 <= i < |a| ==> WellKeyed(a[i].value)
    requires forall j :: 0 <= j < |b| ==> WellKeyed(b[j].value)
    ensures Corresponds(a, b, CanonicalizeMembers(sensitive, a).value, CanonicalizeMembers(sensitive, b).value)
    decreases a, 0
  {
    MembersPointwise(sensitive, a);
    MembersPointwise(sensitive, b);
    var ca, cb := CanonicalizeMembers(sensitive, a).value, CanonicalizeMembers(sensitive, b).value;
    forall i, j | 0 <= i < |a| && 0 <= j < |b|
      ensures Same(a[i].value, b[j].value) <==> ca[i].value == cb[j].value
    {
      SameCanonical(sensitive, a[i].value, b[j].value);
    }
  }

  lemma {:induction false} SameEntries(a: seq<Member>, b: seq<Member>)
    requires DistinctKeys(a) && DistinctKeys(b)
    ensures Sort(a) == Sort(b) <==> forall x :: x in a <==> x in b
  {
    if forall x :: x in a <==> x in b {
      SortSorted(a);
      SortSorted(b);
      SortedIsUnique(Sort(a), Sort(b));
    }
    assert forall x :: (x in Sort(a) <==> x in a) && (x in Sort(b) <==> x in b);
  }

  /** `ca` and `cb` are, position by position, the canonical entries of `a` and `b`. */
  ghost predicate Corresponds(a: seq<Member>, b: seq<Member>, ca: seq<Member>, cb: seq<Member>)
  {
    && |ca| == |a| && |cb| == |b|
    && (forall i :: 0 <= i < |a| ==> ca[i].key == a[i].key)
    && (forall j :: 0 <= j < |b| ==> cb[j].key == b[j].key)
    && (forall i, j :: 0 <= i < |a| && 0 <= j < |b| ==>
          (Same(a[i].value, b[j].value) <==> ca[i].value == cb[j].value))
  }

  lemma {:induction false} SameGivesEntries(a: seq<Member>, b: seq<Member>, ca: seq<Member>, cb: seq<Member>)
    requires DistinctKeys(a) && DistinctKeys(b) && Corresponds(a, b, ca, cb) && Same(Object(a), Object(b))
    ensures forall x :: x in ca <==> x in cb
  {
    forall x | x in ca ensures x in cb {
      var i :| 0 <= i < |ca| && ca[i] == x;
      var j := FindPlace(b, a[i].key);
      assert Same(a[i].value, b[j].value);
      assert cb[j] == x;
    }
    forall x | x in cb ensures x in ca {
      var j :| 0 <= j < |cb| && cb[j] == x;
      var i := FindPlace(a, b[j].key);
      FindAt(b, j);
      assert Same(a[i].value, b[j].value);
      assert ca[i] == x;
    }
  }

  lemma {:induction false} EntriesGiveSame(a: seq<Member>, b: seq<Member>, ca: seq<Member>, cb: seq<Member>)
    requires DistinctKeys(a) && DistinctKeys(b) && Corresponds(a, b, ca, cb) && forall x :: x in ca <==> x in cb
    ensures Same(Object(a), Object(b))
  {
    forall i | 0 <= i < |a|
      ensures Find(b, a[i].key).Some? && Same(a[i].value, Find(b, a[i].key).value)
    {
      assert ca[i] in cb;
      var j :| 0 <= j < |cb| && cb[j] == ca[i];
      FindAt(b, j);
      assert Same(a[i].value, b[j].value);
    }
    forall j | 0 <= j < |b| ensures Find(a, b[j].key).Some? {
      assert cb[j] in ca;
      var i :| 0 <= i < |ca| && ca[i] == cb[j];
      FindAt(a, i);
    }
  }

  lemma {:induction false} SameObjects(a: seq<Member>, b: seq<Member>, ca: seq<Member>, cb: seq<Member>)
    requires DistinctKeys(a) && DistinctKeys(b) && Corresponds(a, b, ca, cb)
    ensures Same(Object(a), Object(b)) <==> Sort(ca) == Sort(cb)
  {
    SameEntries(ca, cb);
    if Same(Object(a), Object(b)) {
      SameGivesEntries(a, b, ca, cb);
    } else if Sort(ca) == Sort(cb) {
      EntriesGiveSame(a, b, ca, cb);
    }
  }

  /** Two accepted values have one canonical form exactly when they are equal up to key order. */
  lemma {:induction false} SameCanonical(sensitive: Sensitive, v: Json, w: Json)
    requires WellKeyed(v) && WellKeyed(w)
    requires Canonicalize(sensitive, v).Some? && Canonicalize(sensitive, w).Some?
    ensures Same(v, w) <==> Canonicalize(sensitive, v) == Canonicalize(sensitive, w)
    decreases v, 1
  {
    match (v, w) {
      case (Array(a), Array(b)) =>
        if |a| == |b| {
          SameItems(sensitive, a, b);
        }
      case (Object(a), Object(b)) =>
        SameMembers(sensitive, a, b);
        MembersPointwise(sensitive, a);
        MembersPointwise(sensitive, b);
        SameObjects(a, b, CanonicalizeMembers(sensitive, a).value, CanonicalizeMembers(sensitive, b).value);
      case _ =>
    }
  }

  /**
   * The canonical text is blind to key order and to nothing else: two accepted values print the
   * same text exactly when they are equal up to the order of their objects' keys.
   */
  lemma {:induction false} CanonicalJsonAgrees(sensitive: Sensitive, v: Json, w: Json)
    requires WellKeyed(v) && WellKeyed(w)
    requires CanonicalJson(sensitive, v).Some? && CanonicalJson(sensitive, w).Some?
    ensures CanonicalJson(sensitive, v) == CanonicalJson(sensitive, w) <==> Same(v, w)
  {
    SameCanonical(sensitive, v, w);
    var cv, cw := Canonicalize(sensitive, v).value, Canonicalize(sensitive, w).value;
    CanonicalizeYieldsCanonical(sensitive, v);
    CanonicalizeYieldsCanonical(sensitive, w);
    CanonicalIsPlain(sensitive, cv);
    CanonicalIsPlain(sensitive, cw);
    if Print(cv) == Print(cw) {
      PrintIsInjective(cv, cw);
    }
  }

  /** Parsing canonical text gives the canonical value, which is the original up to key order. */
  lemma {:induction false} ParseCanonicalJson(sensitive: Sensitive, v: Json)
    requires WellKeyed(v) && CanonicalJson(sensitive, v).Some?
    ensures Parse(CanonicalJson(sensitive, v).value) == Canonicalize(sensitive, v)
    ensures Same(v, Canonicalize(sensitive, v).value)
  {
    var c := Canonicalize(sensitive, v).value;
    CanonicalizeYieldsCanonical(sensitive, v);
    CanonicalIsPlain(sensitive, c);
    ParseUndoesPrint(c);
    CanonicalIsFixed(sensitive, c);
    SameCanonical(sensitive, v, c);
  }
}
