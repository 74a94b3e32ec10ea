/**
  The canonical argument string that binds an elicitation to a tool call
  (`canonicalJSONObject`): reject any object that repeats a key, decode into
  maps, write back compactly with sorted keys. Two accepted texts have the same
  canonical string exactly when they are the same JSON up to member order,
  white space and string escaping.
 */
module CanonicalJson {
  import opened Wrappers
  import opened JsonText
  import Text

  /** What decoding keeps: objects as maps, numbers as their text. */
  datatype Value =
    | VNull
    | VBool(b: bool)
    | VNum(text: string)
    | VStr(s: string)
    | VArr(items: seq<Value>)
    | VObj(fields: map<string, Value>)

  function ValueOf(doc: Doc): Value
    decreases doc, 0
  {
    match doc
    case DNull => VNull
    case DBool(b) => VBool(b)
    case DNum(text) => VNum(text)
    case DStr(s) => VStr(s)
    case DArr(items) => VArr(ValuesOf(items))
    case DObj(members) => VObj(FieldsOf(members))
  }

  function ValuesOf(items: seq<Doc>): (vs: seq<Value>)
    ensures |vs| == |items|
    decreases items, 1
  {
    if items == [] then [] else [ValueOf(items[0])] + ValuesOf(items[1..])
  }

  /** A repeated key keeps its last value. */
  function FieldsOf(members: seq<Member>): map<string, Value>
    decreases members, 1
  {
    if members == [] then map[]
    else map[members[0].key := ValueOf(members[0].value)] + FieldsOf(members[1..])
  }

  // Fields of a member list

  ghost predicate HasKey(members: seq<Member>, key: string) {
    exists i :: 0 <= i < |members| && members[i].key == key
  }

  ghost predicate UniqueKeys(members: seq<Member>) {
    forall i, j | 0 <= i < j < |members| :: members[i].key != members[j].key
  }

  lemma HasKeyFirst(members: seq<Member>, key: string)
    requires members != []
    ensures HasKey(members, key) <==> members[0].key == key || HasKey(members[1..], key)
  {
    var tail := members[1..];
    if i :| 0 <= i < |members| && members[i].key == key {
      assert i > 0 ==> tail[i - 1].key == key;
    }
    if i :| 0 <= i < |tail| && tail[i].key == key {
      assert members[i + 1].key == key;
    }
  }

  lemma UniqueKeysFirst(members: seq<Member>)
    requires members != [] && UniqueKeys(members)
    ensures UniqueKeys(members[1..]) && !HasKey(members[1..], members[0].key)
  {
    assert forall i | 0 <= i < |members[1..]| :: members[1..][i] == members[i + 1];
  }

  lemma {:induction false} FieldKeys(members: seq<Member>, key: string)
    ensures key in FieldsOf(members) <==> HasKey(members, key)
    decreases members
  {
    if members != [] {
      FieldKeys(members[1..], key);
      HasKeyFirst(members, key);
    }
  }

  lemma {:induction false} FieldAt(members: seq<Member>, i: nat)
    requires UniqueKeys(members) && i < |members|
    ensures members[i].key in FieldsOf(members) && FieldsOf(members)[members[i].key] == ValueOf(members[i].value)
    decreases members
  {
    UniqueKeysFirst(members);
    if i == 0 {
      FieldKeys(members[1..], members[0].key);
    } else {
      FieldAt(members[1..], i - 1);
      assert members[1..][i - 1] == members[i];
    }
  }

  lemma {:induction false} FieldCount(members: seq<Member>)
    requires UniqueKeys(members)
    ensures |FieldsOf(members)| == |members|
    decreases members
  {
    if members != [] {
      UniqueKeysFirst(members);
      FieldCount(members[1..]);
      var key, rest := members[0].key, FieldsOf(members[1..]);
      FieldKeys(members[1..], key);
      SizeOfExtended(key, ValueOf(members[0].value), rest);
    }
  }

  lemma SizeOfExtended<K, V>(k: K, v: V, m: map<K, V>)
    requires k !in m
    ensures |map[k := v] + m| == 1 + |m|
  {
    var r := map[k := v] + m;
    assert r.Keys == {k} + m.Keys;
    assert |r| == |r.Keys| && |m| == |m.Keys|;
  }

  lemma SubsetOfSameSize<T>(a: set<T>, b: set<T>)
    requires a <= b && |a| == |b|
    ensures a == b
  {
    assert |b - a| == |b| - |a|;
    assert b == a + (b - a);
  }

  // Sorted keys

  predicate IsLeast(k: string, ks: set<string>) {
    k in ks && forall x | x in ks :: x == k || Text.Less(k, x)
  }

  lemma {:induction false} LeastExists(ks: set<string>)
    requires ks != {}
    ensures exists k :: IsLeast(k, ks)
  {
    var x :| x in ks;
    if ks == {x} {
      assert IsLeast(x, ks);
    } else {
      var rest := ks - {x};
      LeastExists(rest);
      var k :| IsLeast(k, rest);
      Text.LessTotal(k, x);
      if Text.Less(k, x) {
        assert IsLeast(k, ks);
      } else {
        forall y | y in ks ensures y == x || Text.Less(x, y) {
          if y != x && y != k {
            Text.LessTransitive(x, k, y);
          }
        }
        assert IsLeast(x, ks);
      }
    }
  }

  lemma LeastUnique(ks: set<string>)
    ensures forall a, b | IsLeast(a, ks) && IsLeast(b, ks) :: a == b
  {
    forall a, b | IsLeast(a, ks) && IsLeast(b, ks) ensures a == b {
      if a != b {
        Text.LessAsymmetric(a, b);
      }
    }
  }

  function SortedKeys(ks: set<string>): (keys: seq<string>)
    ensures forall k :: k in keys <==> k in ks
    ensures forall i, j | 0 <= i < j < |keys| :: keys[i] != keys[j] && Text.Less(keys[i], keys[j])
    ensures |keys| == |ks|
  {
    if ks == {} then []
    else
      LeastExists(ks);
      LeastUnique(ks);
      var k :| IsLeast(k, ks);
      [k] + SortedKeys(ks - {k})
  }

  // The canonical document of a value

  function Arrange(v: Value): Doc
    decreases v, 0
  {
    match v
    case VNull => DNull
    case VBool(b) => DBool(b)
    case VNum(text) => DNum(text)
    case VStr(s) => DStr(s)
    case VArr(items) => DArr(ArrangeItems(items))
    case VObj(fields) => DObj(ArrangeFields(SortedKeys(fields.Keys), v))
  }

  function ArrangeItems(items: seq<Value>): (docs: seq<Doc>)
    ensures |docs| == |items|
    decreases items, 1
  {
    if items == [] then [] else [Arrange(items[0])] + ArrangeItems(items[1..])
  }

  function ArrangeFields(keys: seq<string>, v: Value): (members: seq<Member>)
    requires v.VObj? && forall k | k in keys :: k in v.fields
    ensures |members| == |keys| && forall i | 0 <= i < |keys| :: members[i].key == keys[i]
    decreases v, 0, |keys|
  {
    if keys == [] then []
    else
      assert keys[0] in v.fields;
      [Member(keys[0], Arrange(v.fields[keys[0]]))] + ArrangeFields(keys[1..], v)
  }

  lemma {:induction false} ArrangeFieldsAt(keys: seq<string>, v: Value)
    requires v.VObj? && forall k | k in keys :: k in v.fields
    ensures forall i | 0 <= i < |keys| ::
              keys[i] in v.fields && ArrangeFields(keys, v)[i] == Member(keys[i], Arrange(v.fields[keys[i]]))
    decreases |keys|
  {
    if keys != [] {
      ArrangeFieldsAt(keys[1..], v);
      assert forall i | 0 < i < |keys| :: keys[i] == keys[1..][i - 1];
    }
  }

  lemma {:induction false} ArrangeItemsAt(items: seq<Value>)
    ensures forall i | 0 <= i < |items| :: ArrangeItems(items)[i] == Arrange(items[i])
    decreases items
  {
    if items != [] {
      ArrangeItemsAt(items[1..]);
      assert forall i | 0 < i < |items| :: items[i] == items[1..][i - 1];
    }
  }

  lemma {:induction false} ValuesAt(items: seq<Doc>)
    ensures forall i | 0 <= i < |items| :: ValuesOf(items)[i] == ValueOf(items[i])
    decreases items
  {
    if items != [] {
      ValuesAt(items[1..]);
      assert forall i | 0 < i < |items| :: items[i] == items[1..][i - 1];
    }
  }

  lemma {:induction false} ArrangeKeepsValue(v: Value)
    ensures ValueOf(Arrange(v)) == v
    decreases v
  {
    if v.VArr? {
      forall i | 0 <= i < |v.items| ensures ValueOf(Arrange(v.items[i])) == v.items[i] {
        ArrangeKeepsValue(v.items[i]);
      }
      ArrangeItemsAt(v.items);
      ValuesAt(ArrangeItems(v.items));
      assert ValuesOf(ArrangeItems(v.items)) == v.items;
    } else if v.VObj? {
      forall k | k in v.fields ensures ValueOf(Arrange(v.fields[k])) == v.fields[k] {
        ArrangeKeepsValue(v.fields[k]);
      }
      ArrangeFieldsKeepsFields(v);
    }
  }

  lemma ArrangedField(members: seq<Member>, keys: seq<string>, fields: map<string, Value>, k: string)
    requires |members| == |keys| && UniqueKeys(members)
    requires forall x :: x in keys <==> x in fields
    requires forall i | 0 <= i < |keys| :: members[i].key == keys[i]
    requires forall i | 0 <= i < |keys| :: keys[i] in fields && ValueOf(members[i].value) == fields[keys[i]]
    ensures k in FieldsOf(members) <==> k in fields
    ensures k in fields ==> FieldsOf(members)[k] == fields[k]
  {
    FieldKeys(members, k);
    if k in fields {
      var i :| 0 <= i < |keys| && keys[i] == k;
      FieldAt(members, i);
    }
  }

  lemma ArrangeFieldsKeepsFields(v: Value)
    requires v.VObj? && forall k | k in v.fields :: ValueOf(Arrange(v.fields[k])) == v.fields[k]
    ensures FieldsOf(ArrangeFields(SortedKeys(v.fields.Keys), v)) == v.fields
  {
    var keys := SortedKeys(v.fields.Keys);
    var members := ArrangeFields(keys, v);
    ArrangeFieldsAt(keys, v);
    forall k ensures (k in FieldsOf(members) <==> k in v.fields)
      && (k in v.fields ==> FieldsOf(members)[k] == v.fields[k]) {
      ArrangedField(members, keys, v.fields, k);
    }
  }

  predicate NumbersValidIn(v: Value) {
    match v
    case VNum(text) => ValidNumber(text)
    case VArr(items) => forall i | 0 <= i < |items| :: NumbersValidIn(items[i])
    case VObj(fields) => forall k | k in fields :: NumbersValidIn(fields[k])
    case _ => true
  }

  // Tokens and the unique-key scan

  /** What the decoder's token stream yields; commas and colons are not tokens. */
  datatype Token = TOpenObj | TCloseObj | TOpenArr | TCloseArr | TString(s: string) | TOther

  /** The tokens of a document, in front of `rest`. */
  function Tokens(doc: Doc, rest: seq<Token>): (ts: seq<Token>)
    ensures ts != [] && ts[0] != TCloseArr && ts[0] != TCloseObj
    decreases doc, 0
  {
    match doc
    case DStr(s) => [TString(s)] + rest
    case DArr(items) => [TOpenArr] + ItemTokens(items, rest)
    case DObj(members) => [TOpenObj] + MemberTokens(members, rest)
    case _ => [TOther] + rest
  }

  function ItemTokens(items: seq<Doc>, rest: seq<Token>): seq<Token>
    decreases items, 1
  {
    if items == [] then [TCloseArr] + rest else Tokens(items[0], ItemTokens(items[1..], rest))
  }

  function MemberTokens(members: seq<Member>, rest: seq<Token>): seq<Token>
    decreases members, 1
  {
    if members == [] then [TCloseObj] + rest
    else [TString(members[0].key)] + Tokens(members[0].value, MemberTokens(members[1..], rest))
  }

  datatype Error = Unterminated | UnexpectedDelimiter | KeyNotString | DuplicateKey | Syntax | NotAnObject

  /** `consumeUniqueJSONValue`: consumes one value, refusing an object that repeats a key. */
  function ConsumeValue(ts: seq<Token>): (r: Result<seq<Token>, Error>)
    ensures r.Ok? ==> |r.value| < |ts|
    decreases |ts|, 0
  {
    if ts == [] then Err(Unterminated)
    else
      match ts[0]
      case TOpenObj => ConsumeMembers(ts[1..], {})
      case TOpenArr => ConsumeItems(ts[1..])
      case TCloseObj => Err(UnexpectedDelimiter)
      case TCloseArr => Err(UnexpectedDelimiter)
      case _ => Ok(ts[1..])
  }

  function ConsumeMembers(ts: seq<Token>, seen: set<string>): (r: Result<seq<Token>, Error>)
    ensures r.Ok? ==> |r.value| < |ts|
    decreases |ts|, 1
  {
    if ts == [] then Err(Unterminated)
    else
      match ts[0]
      case TCloseObj => Ok(ts[1..])
      case TCloseArr => Err(Unterminated)
      case TString(key) =>
        if key in seen then Err(DuplicateKey)
        else
          var rest :- ConsumeValue(ts[1..]);
          ConsumeMembers(rest, seen + {key})
      case _ => Err(KeyNotString)
  }

  function ConsumeItems(ts: seq<Token>): (r: Result<seq<Token>, Error>)
    ensures r.Ok? ==> |r.value| < |ts|
    decreases |ts|, 1
  {
    if ts == [] then Err(Unterminated)
    else
      match ts[0]
      case TCloseArr => Ok(ts[1..])
      case TCloseObj => Err(Unterminated)
      case _ =>
        var rest :- ConsumeValue(ts);
        ConsumeItems(rest)
  }

  /** No object, at any depth, has two members of one key. */
  ghost predicate UniqueDeep(doc: Doc) {
    match doc
    case DArr(items) => forall i | 0 <= i < |items| :: UniqueDeep(items[i])
    case DObj(members) =>
      UniqueKeys(members) && forall i | 0 <= i < |members| :: UniqueDeep(members[i].value)
    case _ => true
  }

  /** The scan of a document's tokens succeeds exactly on unique keys, and consumes exactly the document. */
  lemma {:induction false} ConsumeDocument(doc: Doc, rest: seq<Token>)
    ensures ConsumeValue(Tokens(doc, rest)) == if UniqueDeep(doc) then Ok(rest) else Err(DuplicateKey)
    decreases doc, 0
  {
    match doc
    case DArr(items) => ConsumeDocumentItems(items, rest);
    case DObj(members) => ConsumeDocumentMembers(members, {}, rest);
    case _ =>
  }

  lemma {:induction false} ConsumeDocumentItems(items: seq<Doc>, rest: seq<Token>)
    ensures ConsumeItems(ItemTokens(items, rest)) ==
            if forall i | 0 <= i < |items| :: UniqueDeep(items[i]) then Ok(rest) else Err(DuplicateKey)
    decreases items, 1
  {
    if items != [] {
      ConsumeDocument(items[0], ItemTokens(items[1..], rest));
      ConsumeDocumentItems(items[1..], rest);
      assert (forall i | 0 <= i < |items| :: UniqueDeep(items[i])) <==>
             UniqueDeep(items[0]) && forall i | 0 <= i < |items[1..]| :: UniqueDeep(items[1..][i]) by {
        assert forall i | 0 < i < |items| :: items[i] == items[1..][i - 1];
      }
    }
  }

  /** `members` continue an object whose earlier keys are `seen`. */
  ghost predicate UniqueAfter(members: seq<Member>, seen: set<string>) {
    && (forall i | 0 <= i < |members| :: members[i].key !in seen)
    && UniqueKeys(members)
    && (forall i | 0 <= i < |members| :: UniqueDeep(members[i].value))
  }

  lemma UniqueAfterFirst(members: seq<Member>, seen: set<string>)
    requires members != []
    ensures UniqueAfter(members, seen) <==>
            && members[0].key !in seen && UniqueDeep(members[0].value)
            && UniqueAfter(members[1..], seen + {members[0].key})
  {
    var tail := members[1..];
    assert forall i | 0 < i < |members| :: members[i] == tail[i - 1];
    if members[0].key !in seen && UniqueDeep(members[0].value) && UniqueAfter(tail, seen + {members[0].key}) {
      forall i, j | 0 <= i < j < |members| ensures members[i].key != members[j].key {
        assert members[j] == tail[j - 1];
        if i > 0 {
          assert members[i] == tail[i - 1];
        }
      }
    }
    if UniqueAfter(members, seen) {
      forall i, j | 0 <= i < j < |tail| ensures tail[i].key != tail[j].key {
        assert tail[i] == members[i + 1] && tail[j] == members[j + 1];
      }
      forall i | 0 <= i < |tail| ensures tail[i].key !in seen + {members[0].key} {
        assert tail[i] == members[i + 1];
      }
    }
  }

  lemma {:induction false} ConsumeDocumentMembers(members: seq<Member>, seen: set<string>, rest: seq<Token>)
    ensures ConsumeMembers(MemberTokens(members, rest), seen) ==
            if UniqueAfter(members, seen) then Ok(rest) else Err(DuplicateKey)
    decreases members, 1
  {
    if members != [] {
      var Member(key, value) := members[0];
      ConsumeDocument(value, MemberTokens(members[1..], rest));
      ConsumeDocumentMembers(members[1..], seen + {key}, rest);
      UniqueAfterFirst(members, seen);
    }
  }

  /** `decodeJSONObject`: a well-formed, unique-key object. */
  function DecodeObject(raw: string): Result<Doc, Error> {
    match ReadText(raw)
    case None => Err(Syntax)
    case Some(doc) =>
      var rest :- ConsumeValue(Tokens(doc, []));
      if rest != [] then Err(Syntax)
      else if !doc.DObj? then Err(NotAnObject)
      else Ok(doc)
  }

  /** `canonicalJSONObject`. */
  function Canonical(raw: string): Result<string, Error> {
    var doc :- DecodeObject(raw);
    Ok(Write(Arrange(ValueOf(doc))))
  }

  /** Acceptance: a JSON object in which no object at any depth repeats a key. */
  lemma AcceptedExactlyWhenUnique(raw: string)
    ensures DecodeObject(raw).Ok? <==>
            ReadText(raw).Some? && ReadText(raw).value.DObj? && UniqueDeep(ReadText(raw).value)
    ensures DecodeObject(raw).Ok? ==> DecodeObject(raw).value == ReadText(raw).value
    ensures ReadText(raw).Some? && !UniqueDeep(ReadText(raw).value) ==> DecodeObject(raw) == Err(DuplicateKey)
  {
    if ReadText(raw).Some? {
      var doc := ReadText(raw).value;
      ConsumeDocument(doc, []);
    }
  }

  // Sameness up to member order

  /** Equal JSON, where only the order of an object's members is ignored. */
  ghost predicate Same(a: Doc, b: Doc)
    decreases a
  {
    match a
    case DArr(items) =>
      b.DArr? && |items| == |b.items| && forall i | 0 <= i < |items| :: Same(items[i], b.items[i])
    case DObj(members) =>
      && b.DObj? && |members| == |b.members|
      && forall i | 0 <= i < |members| :: HasSame(members[i], b.members)
    case _ => a == b
  }

  ghost predicate HasSame(m: Member, others: seq<Member>)
    decreases m
  {
    exists j :: 0 <= j < |others| && m.key == others[j].key && Same(m.value, others[j].value)
  }

  /** Decoding forgets exactly the member order. */
  lemma {:induction false} ValuesEqualExactlyWhenSame(a: Doc, b: Doc)
    requires UniqueDeep(a) && UniqueDeep(b)
    ensures ValueOf(a) == ValueOf(b) <==> Same(a, b)
    decreases a
  {
    if a.DArr? && b.DArr? {
      ValuesAt(a.items);
      ValuesAt(b.items);
      forall i | 0 <= i < |a.items| && i < |b.items|
        ensures ValueOf(a.items[i]) == ValueOf(b.items[i]) <==> Same(a.items[i], b.items[i])
      {
        ValuesEqualExactlyWhenSame(a.items[i], b.items[i]);
      }
      if Same(a, b) {
        assert ValuesOf(a.items) == ValuesOf(b.items);
      }
      if ValueOf(a) == ValueOf(b) {
        assert forall i | 0 <= i < |a.items| :: ValuesOf(a.items)[i] == ValuesOf(b.items)[i];
      }
    } else if a.DObj? && b.DObj? {
      forall i, j | 0 <= i < |a.members| && 0 <= j < |b.members|
        ensures ValueOf(a.members[i].value) == ValueOf(b.members[j].value) <==>
                Same(a.members[i].value, b.members[j].value)
      {
        ValuesEqualExactlyWhenSame(a.members[i].value, b.members[j].value);
      }
      ObjectsEqualExactlyWhenSame(a, b);
    }
  }

  lemma ObjectsEqualExactlyWhenSame(a: Doc, b: Doc)
    requires a.DObj? && b.DObj? && UniqueKeys(a.members) && UniqueKeys(b.members)
    requires forall i, j | 0 <= i < |a.members| && 0 <= j < |b.members| ::
               ValueOf(a.members[i].value) == ValueOf(b.members[j].value) <==>
               Same(a.members[i].value, b.members[j].value)
    ensures ValueOf(a) == ValueOf(b) <==> Same(a, b)
  {
    FieldsEqualExactlyWhenMatched(a.members, b.members);
    forall i | 0 <= i < |a.members|
      ensures Matched(a.members[i], b.members) <==> HasSame(a.members[i], b.members)
    {
      MatchedExactlyWhenSame(a.members[i], b.members);
    }
  }

  lemma MatchedExactlyWhenSame(m: Member, ns: seq<Member>)
    requires forall j | 0 <= j < |ns| :: ValueOf(m.value) == ValueOf(ns[j].value) <==> Same(m.value, ns[j].value)
    ensures Matched(m, ns) <==> HasSame(m, ns)
  {
  }

  /** Some member of `ns` has the key and the value of `m`. */
  ghost predicate Matched(m: Member, ns: seq<Member>) {
    exists j :: 0 <= j < |ns| && ns[j].key == m.key && ValueOf(ns[j].value) == ValueOf(m.value)
  }

  lemma FieldMatched(m: Member, ns: seq<Member>)
    requires UniqueKeys(ns)
    ensures Matched(m, ns) <==> m.key in FieldsOf(ns) && FieldsOf(ns)[m.key] == ValueOf(m.value)
  {
    FieldKeys(ns, m.key);
    if j :| 0 <= j < |ns| && ns[j].key == m.key && ValueOf(ns[j].value) == ValueOf(m.value) {
      FieldAt(ns, j);
    }
    if m.key in FieldsOf(ns) {
      var j :| 0 <= j < |ns| && ns[j].key == m.key;
      FieldAt(ns, j);
    }
  }

  /** Objects are equal exactly when they have as many members and each member of one is in the other. */
  lemma FieldsEqualExactlyWhenMatched(ms: seq<Member>, ns: seq<Member>)
    requires UniqueKeys(ms) && UniqueKeys(ns)
    ensures FieldsOf(ms) == FieldsOf(ns) <==> |ms| == |ns| && forall i | 0 <= i < |ms| :: Matched(ms[i], ns)
  {
    FieldCount(ms);
    FieldCount(ns);
    if FieldsOf(ms) == FieldsOf(ns) {
      forall i | 0 <= i < |ms| ensures Matched(ms[i], ns) {
        FieldAt(ms, i);
        FieldMatched(ms[i], ns);
      }
    }
    if |ms| == |ns| && forall i | 0 <= i < |ms| :: Matched(ms[i], ns) {
      forall k | k in FieldsOf(ms) ensures k in FieldsOf(ns) && FieldsOf(ns)[k] == FieldsOf(ms)[k] {
        FieldKeys(ms, k);
        var i :| 0 <= i < |ms| && ms[i].key == k;
        FieldAt(ms, i);
        FieldMatched(ms[i], ns);
      }
      EqualMaps(FieldsOf(ms), FieldsOf(ns));
    }
  }

  lemma EqualMaps<K, V>(f: map<K, V>, g: map<K, V>)
    requires |f| == |g| && forall k | k in f :: k in g && g[k] == f[k]
    ensures f == g
  {
    assert |f.Keys| == |f| && |g.Keys| == |g|;
    SubsetOfSameSize(f.Keys, g.Keys);
  }

  // The canonical form

  lemma {:induction false} ArrangeUnique(v: Value)
    ensures UniqueDeep(Arrange(v))
    decreases v
  {
    if v.VArr? {
      forall i | 0 <= i < |v.items| ensures UniqueDeep(Arrange(v.items[i])) {
        ArrangeUnique(v.items[i]);
      }
      ArrangeItemsAt(v.items);
    } else if v.VObj? {
      forall k | k in v.fields ensures UniqueDeep(Arrange(v.fields[k])) {
        ArrangeUnique(v.fields[k]);
      }
      ArrangeFieldsAt(SortedKeys(v.fields.Keys), v);
    }
  }

  lemma {:induction false} ArrangeNumbers(v: Value)
    requires NumbersValidIn(v)
    ensures NumbersValid(Arrange(v))
    decreases v
  {
    if v.VArr? {
      forall i | 0 <= i < |v.items| ensures NumbersValid(Arrange(v.items[i])) {
        ArrangeNumbers(v.items[i]);
      }
      ArrangeItemsAt(v.items);
    } else if v.VObj? {
      forall k | k in v.fields ensures NumbersValid(Arrange(v.fields[k])) {
        ArrangeNumbers(v.fields[k]);
      }
      ArrangeFieldsAt(SortedKeys(v.fields.Keys), v);
    }
  }

  lemma {:induction false} DecodedNumbers(doc: Doc)
    requires NumbersValid(doc)
    ensures NumbersValidIn(ValueOf(doc))
    decreases doc, 0
  {
    if doc.DArr? {
      forall i | 0 <= i < |doc.items| ensures NumbersValidIn(ValueOf(doc.items[i])) {
        DecodedNumbers(doc.items[i]);
      }
      ValuesAt(doc.items);
    } else if doc.DObj? {
      DecodedFieldNumbers(doc.members);
    }
  }

  lemma {:induction false} DecodedFieldNumbers(members: seq<Member>)
    requires forall i | 0 <= i < |members| :: NumbersValid(members[i].value)
    ensures forall k | k in FieldsOf(members) :: NumbersValidIn(FieldsOf(members)[k])
    decreases members, 1
  {
    if members != [] {
      DecodedNumbers(members[0].value);
      DecodedFieldNumbers(members[1..]);
    }
  }

  /** At every depth the members stand in ascending order of their keys. */
  predicate Sorted(doc: Doc) {
    match doc
    case DArr(items) => forall i | 0 <= i < |items| :: Sorted(items[i])
    case DObj(members) =>
      && (forall i, j | 0 <= i < j < |members| :: Text.Less(members[i].key, members[j].key))
      && (forall i | 0 <= i < |members| :: Sorted(members[i].value))
    case _ => true
  }

  lemma {:induction false} ArrangeSorts(v: Value)
    ensures Sorted(Arrange(v))
    decreases v
  {
    match v
    case VArr(items) =>
      ArrangeItemsAt(items);
      forall i | 0 <= i < |items| ensures Sorted(Arrange(items[i])) {
        ArrangeSorts(items[i]);
      }
    case VObj(fields) =>
      var keys := SortedKeys(fields.Keys);
      ArrangeFieldsAt(keys, v);
      forall i | 0 <= i < |keys| ensures keys[i] in fields && Sorted(Arrange(fields[keys[i]])) {
        assert keys[i] in keys;
        ArrangeSorts(fields[keys[i]]);
      }
    case _ =>
  }

  /** The document a canonical string denotes, with its members in order. */
  lemma CanonicalReadsBack(raw: string)
    requires Canonical(raw).Ok?
    ensures ReadText(Canonical(raw).value) == Some(Arrange(ValueOf(ReadText(raw).value)))
    ensures Sorted(ReadText(Canonical(raw).value).value)
  {
    ArrangeSorts(ValueOf(ReadText(raw).value));
    AcceptedExactlyWhenUnique(raw);
    ReadTextValid(raw);
    var v := ValueOf(ReadText(raw).value);
    DecodedNumbers(ReadText(raw).value);
    ArrangeNumbers(v);
    WriteThenRead(Arrange(v));
  }

  /**
    Reparsing: the canonical string is accepted again, denotes the same JSON as
    the original, and is its own canonical string.
   */
  lemma CanonicalDenotesOriginal(raw: string)
    requires Canonical(raw).Ok?
    ensures var canonical := Canonical(raw).value;
            && DecodeObject(canonical).Ok?
            && Same(ReadText(raw).value, ReadText(canonical).value)
            && Canonical(canonical) == Ok(canonical)
  {
    CanonicalReadsBack(raw);
    AcceptedExactlyWhenUnique(raw);
    var canonical := Canonical(raw).value;
    var doc := ReadText(raw).value;
    var v := ValueOf(doc);
    ArrangeUnique(v);
    ArrangeKeepsValue(v);
    AcceptedExactlyWhenUnique(canonical);
    ValuesEqualExactlyWhenSame(doc, Arrange(v));
  }

  /** Canonical strings are equal exactly when the accepted texts are the same JSON. */
  lemma CanonicalForm(a: string, b: string)
    requires Canonical(a).Ok? && Canonical(b).Ok?
    ensures Canonical(a).value == Canonical(b).value <==> Same(ReadText(a).value, ReadText(b).value)
  {
    CanonicalReadsBack(a);
    CanonicalReadsBack(b);
    AcceptedExactlyWhenUnique(a);
    AcceptedExactlyWhenUnique(b);
    ArrangeKeepsValue(ValueOf(ReadText(a).value));
    ArrangeKeepsValue(ValueOf(ReadText(b).value));
    ValuesEqualExactlyWhenSame(ReadText(a).value, ReadText(b).value);
  }
}
