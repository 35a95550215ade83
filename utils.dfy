/**
 * The key-name conversions between the backend's snake_case and the frontend's camelCase
 * (`to_camel_case`, `to_snake_case`) and their recursive application to every dictionary key of
 * a JSON value (`camelize_dict_keys`, `snakify_dict_keys`). Letters are ASCII: `isupper`,
 * `lower` and `title` are modelled on 'A'..'Z' and 'a'..'z' only.
 */
module CaseConversion {
  import opened Wrappers
  import opened PyText

  predicate IsLetter(c: char) { IsAsciiUpper(c) || IsAsciiLower(c) }

  /** One character of `str.title`: a letter is lower-cased after a letter, upper-cased otherwise. */
  function TitleChar(c: char, afterLetter: bool): (r: char)
    ensures IsLetter(r) == IsLetter(c)
    ensures !IsLetter(c) ==> r == c
    ensures IsLetter(c) ==> (IsAsciiLower(r) <==> afterLetter)
    ensures IsLetter(c) ==> LowerChar(r) == LowerChar(c)
  {
    if !IsLetter(c) then c else if afterLetter then LowerChar(c) else UpperChar(c)
  }

  /** `str.title` from a point where the character before was (or was not) a letter. */
  function TitleFrom(s: string, afterLetter: bool): (r: string)
    ensures |r| == |s|
    ensures forall i | 0 <= i < |s| :: IsLetter(r[i]) == IsLetter(s[i])
    ensures forall i | 0 <= i < |s| && !IsLetter(s[i]) :: r[i] == s[i]
    ensures forall i | 0 <= i < |s| :: r[i] == TitleChar(s[i], if i == 0 then afterLetter else IsLetter(s[i - 1]))
  {
    if s == [] then []
    else
      var rest := TitleFrom(s[1..], IsLetter(s[0]));
      var r := [TitleChar(s[0], afterLetter)] + rest;
      assert forall i | 1 <= i < |s| :: r[i] == rest[i - 1] && s[i] == s[1..][i - 1];
      r
  }

  /**
   * `s.title()`: a letter after a non-letter (or at the start) is upper-cased, a letter after a
   * letter lower-cased, anything else kept.
   */
  function Title(s: string): (r: string)
    ensures |r| == |s|
    ensures forall i | 0 <= i < |s| :: IsLetter(r[i]) == IsLetter(s[i])
    ensures forall i | 0 <= i < |s| && !IsLetter(s[i]) :: r[i] == s[i]
    ensures forall i | 0 <= i < |s| :: r[i] == TitleChar(s[i], i > 0 && IsLetter(s[i - 1]))
  {
    TitleFrom(s, false)
  }

  /** `''.join(x.title() for x in parts)`. */
  function TitleAll(parts: seq<string>): string {
    if parts == [] then [] else Title(parts[0]) + TitleAll(parts[1..])
  }

  /** `title` turns no other character into '_'. */
  lemma {:induction false} TitleAllNoUnderscore(parts: seq<string>)
    requires forall k | 0 <= k < |parts| :: '_' !in parts[k]
    ensures '_' !in TitleAll(parts)
  {
    if parts != [] {
      TitleAllNoUnderscore(parts[1..]);
      var t := Title(parts[0]);
      forall i | 0 <= i < |t|
        ensures t[i] != '_'
      {
        assert parts[0][i] != '_';
        assert IsLetter(t[i]) || t[i] == parts[0][i];
      }
    }
  }

  /**
   * `to_camel_case`: split on '_', the first piece kept as it is, every later piece title-cased,
   * all joined. No '_' is left.
   */
  function ToCamelCase(s: string): (r: string)
    ensures '_' !in r
  {
    var parts := Split(s, '_');
    TitleAllNoUnderscore(parts[1..]);
    parts[0] + TitleAll(parts[1..])
  }

  /** What `to_snake_case` writes for a character after the first: '_' and the lower-case letter for an upper-case one. */
  function SnakePiece(c: char): (r: string)
    ensures !IsAsciiUpper(c) ==> r == [c]
    ensures IsAsciiUpper(c) ==> r == ['_', LowerChar(c)]
  {
    if IsAsciiUpper(c) then ['_', LowerChar(c)] else [c]
  }

  function SnakeTail(s: string): string {
    if s == [] then [] else SnakePiece(s[0]) + SnakeTail(s[1..])
  }

  /** `to_snake_case` as a value: the first character lower-cased, then the pieces of the rest. */
  function SnakeCase(s: string): string
    requires s != []
  {
    [LowerChar(s[0])] + SnakeTail(s[1..])
  }

  function CountUpper(s: string): nat {
    if s == [] then 0 else (if IsAsciiUpper(s[0]) then 1 else 0) + CountUpper(s[1..])
  }

  /**
   * `to_snake_case`: the first character lower-cased, then each later character appended, an
   * upper-case one as '_' and its lower case. The empty string raises `IndexError`, hence the
   * precondition.
   */
  method ToSnakeCase(camel: string) returns (r: string)
    requires camel != []
    ensures r == SnakeCase(camel)
  {
    var result := [LowerChar(camel[0])];
    var i := 1;
    while i < |camel|
      invariant 1 <= i <= |camel|
      invariant result == [LowerChar(camel[0])] + SnakeTail(camel[1..i])
    {
      var c := camel[i];
      SnakeTailStep(camel, i);
      if IsAsciiUpper(c) {
        result := result + ['_'];
        result := result + [LowerChar(c)];
      } else {
        result := result + [c];
      }
      i := i + 1;
    }
    assert camel[1..|camel|] == camel[1..];
    r := result;
  }

  /** One more character read by `to_snake_case` is one more piece. */
  lemma SnakeTailStep(camel: string, i: nat)
    requires 1 <= i < |camel|
    ensures SnakeTail(camel[1..i + 1]) == SnakeTail(camel[1..i]) + SnakePiece(camel[i])
  {
    assert camel[1..i + 1] == camel[1..i] + [camel[i]];
    SnakeTailAppend(camel[1..i], [camel[i]]);
    assert SnakeTail([camel[i]]) == SnakePiece(camel[i]) + SnakeTail([]);
  }

  lemma {:induction false} SnakeTailAppend(a: string, b: string)
    ensures SnakeTail(a + b) == SnakeTail(a) + SnakeTail(b)
  {
    if a == [] {
      assert a + b == b;
    } else {
      assert (a + b)[1..] == a[1..] + b;
      SnakeTailAppend(a[1..], b);
    }
  }

  /** Each upper-case letter after the first character adds one '_'. */
  lemma {:induction false} SnakeTailLength(s: string)
    ensures |SnakeTail(s)| == |s| + CountUpper(s)
  {
    if s != [] {
      SnakeTailLength(s[1..]);
    }
  }

  lemma SnakeCaseLength(s: string)
    requires s != []
    ensures |SnakeCase(s)| == |s| + CountUpper(s[1..])
  {
    SnakeTailLength(s[1..]);
  }

  predicate NoUpper(s: string) {
    forall i | 0 <= i < |s| :: !IsAsciiUpper(s[i])
  }

  lemma {:induction false} SnakeTailNoUpper(s: string)
    ensures NoUpper(SnakeTail(s))
  {
    if s != [] {
      SnakeTailNoUpper(s[1..]);
      var p, t := SnakePiece(s[0]), SnakeTail(s[1..]);
      forall i | 0 <= i < |p + t|
        ensures !IsAsciiUpper((p + t)[i])
      {
        if i >= |p| {
          assert (p + t)[i] == t[i - |p|];
        }
      }
    }
  }

  /** No upper-case letter is left in what `to_snake_case` writes. */
  lemma SnakeCaseNoUpper(s: string)
    requires s != []
    ensures NoUpper(SnakeCase(s))
  {
    SnakeTailNoUpper(s[1..]);
    var t := SnakeTail(s[1..]);
    forall i | 0 <= i < |SnakeCase(s)|
      ensures !IsAsciiUpper(SnakeCase(s)[i])
    {
      if i > 0 {
        assert SnakeCase(s)[i] == t[i - 1];
      }
    }
  }

  /** Without upper-case letters, the rest is copied as it is. */
  lemma {:induction false} SnakeTailIdentity(s: string)
    requires NoUpper(s)
    ensures SnakeTail(s) == s
  {
    if s != [] {
      assert NoUpper(s[1..]) by {
        forall i | 0 <= i < |s[1..]|
          ensures !IsAsciiUpper(s[1..][i])
        {
          assert s[1..][i] == s[i + 1];
        }
      }
      SnakeTailIdentity(s[1..]);
      assert s == [s[0]] + s[1..];
    }
  }

  /** `to_snake_case` is the identity on text with no upper-case letter. */
  lemma SnakeCaseIdentity(s: string)
    requires s != [] && NoUpper(s)
    ensures SnakeCase(s) == s
  {
    SnakeTailIdentity(s[1..]);
  }

  predicate AllLower(w: string) {
    forall i | 0 <= i < |w| :: IsAsciiLower(w[i])
  }

  /**
   * A snake_case key: lower-case letters in words joined by single underscores, with no
   * underscore at either end.
   */
  predicate IsSnakeKey(k: string) {
    && k != [] && k[0] != '_' && k[|k| - 1] != '_'
    && (forall i | 0 <= i < |k| :: IsAsciiLower(k[i]) || k[i] == '_')
    && (forall i | 0 <= i < |k| - 1 :: !(k[i] == '_' && k[i + 1] == '_'))
  }

  /** A snake key splits into non-empty lower-case words. */
  lemma {:induction false} SnakeKeyWords(k: string)
    requires IsSnakeKey(k)
    ensures forall w | w in Split(k, '_') :: w != [] && AllLower(w)
    decreases |k|
  {
    match IndexOf(k, '_')
    case None =>
      NoUnderscoreIsLower(k);
    case Some(i) =>
      var rest := k[i + 1..];
      SnakeKeyRest(k, i);
      SnakeKeyWords(rest);
      FirstWordLower(k, i);
      assert Split(k, '_') == [k[..i]] + Split(rest, '_');
  }

  /** A piece of a snake key without an underscore is a lower-case word. */
  lemma NoUnderscoreIsLower(w: string)
    requires forall i | 0 <= i < |w| :: IsAsciiLower(w[i]) || w[i] == '_'
    requires '_' !in w
    ensures AllLower(w)
  {
    forall j | 0 <= j < |w|
      ensures IsAsciiLower(w[j])
    {
      assert w[j] in w;
    }
  }

  /** The text before the first underscore of a snake key is a non-empty lower-case word. */
  lemma FirstWordLower(k: string, i: nat)
    requires IsSnakeKey(k) && i < |k| && k[i] == '_' && '_' !in k[..i]
    ensures k[..i] != [] && AllLower(k[..i])
  {
    assert i > 0;
    var w := k[..i];
    assert forall j | 0 <= j < |w| :: IsAsciiLower(w[j]) || w[j] == '_' by {
      forall j | 0 <= j < |w|
        ensures IsAsciiLower(w[j]) || w[j] == '_'
      {
        assert w[j] == k[j];
      }
    }
    NoUnderscoreIsLower(w);
  }

  /** What follows the first underscore of a snake key is a snake key again. */
  lemma SnakeKeyRest(k: string, i: nat)
    requires IsSnakeKey(k) && i < |k| && k[i] == '_'
    ensures IsSnakeKey(k[i + 1..])
  {
    var rest := k[i + 1..];
    assert i + 1 < |k|;
    assert rest[0] == k[i + 1];
    assert rest[|rest| - 1] == k[|k| - 1];
    forall j | 0 <= j < |rest|
      ensures IsAsciiLower(rest[j]) || rest[j] == '_'
    {
      assert rest[j] == k[i + 1 + j];
    }
    forall j | 0 <= j < |rest| - 1
      ensures !(rest[j] == '_' && rest[j + 1] == '_')
    {
      assert rest[j] == k[i + 1 + j] && rest[j + 1] == k[i + 1 + j + 1];
    }
  }

  /** A lower-case word, title-cased: its first letter upper-cased. */
  lemma TitleOfWord(w: string)
    requires w != [] && AllLower(w)
    ensures Title(w) == [UpperChar(w[0])] + w[1..]
  {
    assert IsAsciiLower(w[0]);
    LowerAfterLetter(w[1..]);
  }

  /** Lower-case letters after a letter are kept as they are. */
  lemma {:induction false} LowerAfterLetter(w: string)
    requires AllLower(w)
    ensures TitleFrom(w, true) == w
  {
    if w != [] {
      assert IsAsciiLower(w[0]);
      assert AllLower(w[1..]) by {
        forall i | 0 <= i < |w[1..]|
          ensures IsAsciiLower(w[1..][i])
        {
          assert w[1..][i] == w[i + 1];
        }
      }
      LowerAfterLetter(w[1..]);
      assert [w[0]] + w[1..] == w;
    }
  }

  /** Snake-casing the title-cased words gives the words back, each behind a '_'. */
  lemma {:induction false} SnakeOfTitles(words: seq<string>)
    requires forall w | w in words :: w != [] && AllLower(w)
    ensures SnakeTail(TitleAll(words)) == UnderscoreJoin(words)
  {
    if words != [] {
      var w := words[0];
      assert w in words;
      forall v | v in words[1..]
        ensures v != [] && AllLower(v)
      {
        assert v in words;
      }
      SnakeOfTitles(words[1..]);
      SnakeOfTitle(w);
      SnakeTailAppend(Title(w), TitleAll(words[1..]));
    }
  }

  /** A title-cased word, snake-cased: '_' and the word. */
  lemma SnakeOfTitle(w: string)
    requires w != [] && AllLower(w)
    ensures SnakeTail(Title(w)) == ['_'] + w
  {
    var u := [UpperChar(w[0])] + w[1..];
    assert Title(w) == u by {
      TitleOfWord(w);
    }
    assert SnakeTail(u) == ['_', w[0]] + w[1..] by {
      SnakeTailCons(UpperChar(w[0]), w[1..]);
      SnakePieceOfUpper(w[0]);
      LowerTailIsPlain(w);
      SnakeTailIdentity(w[1..]);
    }
    assert ['_'] + w == ['_', w[0]] + w[1..] by {
      assert w == [w[0]] + w[1..];
    }
  }

  lemma SnakeTailCons(c: char, rest: string)
    ensures SnakeTail([c] + rest) == SnakePiece(c) + SnakeTail(rest)
  {
    assert ([c] + rest)[1..] == rest;
  }

  /** An upper-cased lower-case letter comes out as '_' and the letter. */
  lemma SnakePieceOfUpper(c: char)
    requires IsAsciiLower(c)
    ensures SnakePiece(UpperChar(c)) == ['_', c]
  {
  }

  lemma LowerTailIsPlain(w: string)
    requires w != [] && AllLower(w)
    ensures NoUpper(w[1..])
  {
    forall i | 0 <= i < |w[1..]|
      ensures !IsAsciiUpper(w[1..][i])
    {
      assert w[1..][i] == w[i + 1];
      assert IsAsciiLower(w[i + 1]);
    }
  }

  /** `'_' + w` for every word, concatenated. */
  function UnderscoreJoin(words: seq<string>): string {
    if words == [] then [] else ['_'] + words[0] + UnderscoreJoin(words[1..])
  }

  lemma {:induction false} JoinUnderscores(words: seq<string>)
    requires |words| >= 1
    ensures Join(words, '_') == words[0] + UnderscoreJoin(words[1..])
  {
    if |words| > 1 {
      JoinUnderscores(words[1..]);
      assert words[1..][1..] == words[2..];
      assert UnderscoreJoin(words[1..]) == ['_'] + words[1] + UnderscoreJoin(words[2..]);
    }
  }

  /** Text without upper-case letters, followed by more text, is copied as it is. */
  lemma SnakeTailOfPlain(plain: string, t: string)
    requires NoUpper(plain)
    ensures SnakeTail(plain + t) == plain + SnakeTail(t)
  {
    SnakeTailAppend(plain, t);
    SnakeTailIdentity(plain);
  }

  /** `to_snake_case` of a text that starts with `w0`: the first character, then the rest of the text snake-cased. */
  lemma SnakeCaseOfAppend(w0: string, t: string)
    requires w0 != []
    ensures SnakeCase(w0 + t) == [LowerChar(w0[0])] + SnakeTail(w0[1..] + t)
  {
    var c := w0 + t;
    assert c[0] == w0[0] && c[1..] == w0[1..] + t;
  }

  lemma AllLowerNoUpper(w: string)
    requires AllLower(w)
    ensures NoUpper(w)
  {
    forall i | 0 <= i < |w|
      ensures !IsAsciiUpper(w[i])
    {
      assert IsAsciiLower(w[i]);
    }
  }

  /** A lower-case first word passes through `to_snake_case` unchanged. */
  lemma SnakeOfWordThen(w0: string, t: string)
    requires w0 != [] && AllLower(w0)
    ensures SnakeCase(w0 + t) == w0 + SnakeTail(t)
  {
    var tail := w0[1..];
    SnakeCaseOfAppend(w0, t);
    assert LowerChar(w0[0]) == w0[0] by {
      assert IsAsciiLower(w0[0]);
    }
    assert NoUpper(tail) by {
      AllLowerNoUpper(w0);
      forall i | 0 <= i < |tail|
        ensures !IsAsciiUpper(tail[i])
      {
        assert tail[i] == w0[i + 1];
      }
    }
    SnakeTailOfPlain(tail, t);
    SeqCons(w0, SnakeTail(t));
  }

  /** Putting the first character back in front. */
  lemma SeqCons(w: string, x: string)
    requires w != []
    ensures [w[0]] + (w[1..] + x) == w + x
  {
    assert [w[0]] + w[1..] == w;
  }

  /** Snake-casing a first word followed by title-cased words joins the words with '_'. */
  lemma SnakeOfCamelParts(w0: string, rest: seq<string>)
    requires w0 != [] && AllLower(w0)
    requires forall w | w in rest :: w != [] && AllLower(w)
    ensures SnakeCase(w0 + TitleAll(rest)) == w0 + UnderscoreJoin(rest)
  {
    SnakeOfWordThen(w0, TitleAll(rest));
    SnakeOfTitles(rest);
  }

  /** `to_snake_case(to_camel_case(k)) == k` for snake keys: `first_name` gives `firstName` and back. */
  lemma SnakeCamelRoundTrip(k: string)
    requires IsSnakeKey(k)
    ensures ToCamelCase(k) != []
    ensures SnakeCase(ToCamelCase(k)) == k
  {
    var words := Split(k, '_');
    SnakeKeyWords(k);
    assert words[0] in words;
    forall w | w in words[1..]
      ensures w != [] && AllLower(w)
    {
      assert w in words;
    }
    assert ToCamelCase(k) == words[0] + TitleAll(words[1..]);
    SnakeOfCamelParts(words[0], words[1..]);
    JoinUnderscores(words);
  }

  /** A JSON value as the request and response bodies carry it; an object keeps insertion order. */
  datatype Json =
    | JNull
    | JBool(b: bool)
    | JNum(n: real)
    | JStr(s: string)
    | JList(items: seq<Json>)
    | JObject(members: seq<Member>)

  datatype Member = Member(key: string, value: Json)

  predicate DistinctKeys(ms: seq<Member>) {
    forall i, j | 0 <= i < j < |ms| :: ms[i].key != ms[j].key
  }

  predicate HasKey(ms: seq<Member>, k: string) {
    exists i | 0 <= i < |ms| :: ms[i].key == k
  }

  /**
   * `d[k] = v` on a dict: an existing key keeps its place and takes the new value, a new key
   * goes at the end.
   */
  function Assign(ms: seq<Member>, m: Member): (r: seq<Member>)
    ensures DistinctKeys(ms) ==> DistinctKeys(r)
    ensures forall k :: HasKey(r, k) <==> k == m.key || HasKey(ms, k)
  {
    if ms == [] then
      ConsKeys(m, []);
      assert [m] == [m] + [];
      [m]
    else if ms[0].key == m.key then
      var r := [m] + ms[1..];
      ConsKeys(m, ms[1..]);
      ConsKeys(ms[0], ms[1..]);
      assert [ms[0]] + ms[1..] == ms;
      assert DistinctKeys(ms) ==> DistinctKeys(r) by {
        if DistinctKeys(ms) {
          DistinctTail(ms);
          ConsDistinct(m, ms[1..]);
        }
      }
      r
    else
      var rest := Assign(ms[1..], m);
      var r := [ms[0]] + rest;
      ConsKeys(ms[0], rest);
      ConsKeys(ms[0], ms[1..]);
      assert [ms[0]] + ms[1..] == ms;
      assert DistinctKeys(ms) ==> DistinctKeys(r) by {
        if DistinctKeys(ms) {
          DistinctTail(ms);
          ConsDistinct(ms[0], rest);
        }
      }
      r
  }

  /** The keys of a member put in front: its own and those behind it. */
  lemma ConsKeys(x: Member, rest: seq<Member>)
    ensures forall k :: HasKey([x] + rest, k) <==> k == x.key || HasKey(rest, k)
  {
    var r := [x] + rest;
    forall k | HasKey(r, k) && k != x.key
      ensures HasKey(rest, k)
    {
      var i :| 0 <= i < |r| && r[i].key == k;
      assert rest[i - 1] == r[i];
    }
    forall k | HasKey(rest, k)
      ensures HasKey(r, k)
    {
      var i :| 0 <= i < |rest| && rest[i].key == k;
      assert r[i + 1] == rest[i];
    }
    assert r[0] == x;
  }

  /** Behind the first member of a dict with distinct keys, its key does not come again. */
  lemma DistinctTail(ms: seq<Member>)
    requires ms != [] && DistinctKeys(ms)
    ensures DistinctKeys(ms[1..]) && !HasKey(ms[1..], ms[0].key)
  {
    var t := ms[1..];
    forall i, j | 0 <= i < j < |t|
      ensures t[i].key != t[j].key
    {
      assert t[i] == ms[i + 1] && t[j] == ms[j + 1];
    }
    forall i | 0 <= i < |t|
      ensures t[i].key != ms[0].key
    {
      assert t[i] == ms[i + 1];
    }
  }

  /** A member whose key is new, put in front of distinct keys, keeps them distinct. */
  lemma ConsDistinct(x: Member, rest: seq<Member>)
    requires DistinctKeys(rest) && !HasKey(rest, x.key)
    ensures DistinctKeys([x] + rest)
  {
    var r := [x] + rest;
    forall i, j | 0 <= i < j < |r|
      ensures r[i].key != r[j].key
    {
      assert r[j] == rest[j - 1];
      if i > 0 {
        assert r[i] == rest[i - 1];
      }
    }
  }

  /** A dict comprehension: the members assigned one after the other. */
  function Collect(ms: seq<Member>): seq<Member> {
    if ms == [] then [] else Assign(Collect(ms[..|ms| - 1]), ms[|ms| - 1])
  }

  /** The value a dict holds for `k`. */
  function Lookup(ms: seq<Member>, k: string): Option<Json> {
    if ms == [] then None else if ms[0].key == k then Some(ms[0].value) else Lookup(ms[1..], k)
  }

  /** The value of the last member with key `k`. */
  function LastValue(ms: seq<Member>, k: string): Option<Json> {
    if ms == [] then None
    else if ms[|ms| - 1].key == k then Some(ms[|ms| - 1].value)
    else LastValue(ms[..|ms| - 1], k)
  }

  lemma {:induction false} LookupAssign(ms: seq<Member>, m: Member, k: string)
    ensures Lookup(Assign(ms, m), k) == if k == m.key then Some(m.value) else Lookup(ms, k)
  {
    if ms != [] && ms[0].key != m.key {
      LookupAssign(ms[1..], m, k);
    }
  }

  /** When two keys meet in a comprehension, the later one wins; the keys stay distinct. */
  lemma {:induction false} LaterKeyWins(ms: seq<Member>, k: string)
    ensures Lookup(Collect(ms), k) == LastValue(ms, k)
    ensures DistinctKeys(Collect(ms))
  {
    if ms != [] {
      LaterKeyWins(ms[..|ms| - 1], k);
      LookupAssign(Collect(ms[..|ms| - 1]), ms[|ms| - 1], k);
    }
  }

  /** A comprehension has exactly the keys of its members. */
  lemma {:induction false} CollectKeys(ms: seq<Member>, k: string)
    ensures HasKey(Collect(ms), k) <==> HasKey(ms, k)
  {
    if ms != [] {
      var init := ms[..|ms| - 1];
      CollectKeys(init, k);
      if HasKey(ms, k) && !HasKey(init, k) {
        var i :| 0 <= i < |ms| && ms[i].key == k;
        assert i == |ms| - 1;
      }
      if HasKey(init, k) {
        var i :| 0 <= i < |init| && init[i].key == k;
        assert ms[i].key == k;
      }
    }
  }

  /** With distinct keys, a comprehension keeps every member in its place. */
  lemma {:induction false} CollectDistinct(ms: seq<Member>)
    requires DistinctKeys(ms)
    ensures Collect(ms) == ms
  {
    if ms != [] {
      var init := ms[..|ms| - 1];
      var m := ms[|ms| - 1];
      CollectDistinct(init);
      AssignNew(init, m);
      assert init + [m] == ms;
    }
  }

  lemma {:induction false} AssignNew(ms: seq<Member>, m: Member)
    requires forall i | 0 <= i < |ms| :: ms[i].key != m.key
    ensures Assign(ms, m) == ms + [m]
  {
    if ms != [] {
      AssignNew(ms[1..], m);
      assert [ms[0]] + (ms[1..] + [m]) == ms + [m];
    }
  }

  /** `camelize_dict_keys`: every dict key converted, every value converted, lists element-wise. */
  function Camelize(j: Json): (r: Json)
    ensures j.JList? ==> r.JList? && |r.items| == |j.items| && forall i | 0 <= i < |j.items| :: r.items[i] == Camelize(j.items[i])
    ensures !j.JList? && !j.JObject? ==> r == j
    ensures j.JObject? ==> r.JObject? && DistinctKeys(r.members)
    decreases j
  {
    match j
    case JObject(ms) =>
      var converted := seq(|ms|, i requires 0 <= i < |ms| => Member(ToCamelCase(ms[i].key), Camelize(ms[i].value)));
      LaterKeyWins(converted, []);
      JObject(Collect(converted))
    case JList(xs) => JList(seq(|xs|, i requires 0 <= i < |xs| => Camelize(xs[i])))
    case _ => j
  }

  /** In a camelized object, a converted key holds the value of the last member it came from. */
  lemma CamelizeKeyWins(ms: seq<Member>, k: string)
    ensures Lookup(Camelize(JObject(ms)).members, k)
            == LastValue(seq(|ms|, i requires 0 <= i < |ms| => Member(ToCamelCase(ms[i].key), Camelize(ms[i].value))), k)
  {
    LaterKeyWins(seq(|ms|, i requires 0 <= i < |ms| => Member(ToCamelCase(ms[i].key), Camelize(ms[i].value))), k);
  }

  /** The keys a camelized object sends hold no '_'. */
  lemma CamelizedKeysHaveNoUnderscore(ms: seq<Member>)
    ensures forall i | 0 <= i < |Camelize(JObject(ms)).members| :: '_' !in Camelize(JObject(ms)).members[i].key
  {
    var converted := seq(|ms|, i requires 0 <= i < |ms| => Member(ToCamelCase(ms[i].key), Camelize(ms[i].value)));
    var out := Camelize(JObject(ms)).members;
    assert out == Collect(converted);
    forall i | 0 <= i < |out|
      ensures '_' !in out[i].key
    {
      CollectKeys(converted, out[i].key);
      assert HasKey(out, out[i].key);
      var j :| 0 <= j < |converted| && converted[j].key == out[i].key;
    }
  }

  /** Every dict key is non-empty, so `to_snake_case` can read its first character. */
  predicate KeysNonEmpty(j: Json)
    decreases j
  {
    match j
    case JObject(ms) => forall i | 0 <= i < |ms| :: ms[i].key != [] && KeysNonEmpty(ms[i].value)
    case JList(xs) => forall i | 0 <= i < |xs| :: KeysNonEmpty(xs[i])
    case _ => true
  }

  /** `snakify_dict_keys` where no key is empty. */
  function Snakify(j: Json): (r: Json)
    requires KeysNonEmpty(j)
    ensures j.JList? ==> r.JList? && |r.items| == |j.items| && forall i | 0 <= i < |j.items| :: r.items[i] == Snakify(j.items[i])
    ensures !j.JList? && !j.JObject? ==> r == j
    ensures j.JObject? ==> r.JObject? && DistinctKeys(r.members)
    decreases j
  {
    match j
    case JObject(ms) =>
      var converted := seq(|ms|, i requires 0 <= i < |ms| => Member(SnakeCase(ms[i].key), Snakify(ms[i].value)));
      LaterKeyWins(converted, []);
      JObject(Collect(converted))
    case JList(xs) => JList(seq(|xs|, i requires 0 <= i < |xs| => Snakify(xs[i])))
    case _ => j
  }

  /** `snakify_dict_keys`: None for the `IndexError` an empty key raises. */
  function SnakifyChecked(j: Json): (r: Option<Json>)
    ensures r.Some? <==> KeysNonEmpty(j)
  {
    if KeysNonEmpty(j) then Some(Snakify(j)) else None
  }

  /** The bodies the backend writes: snake keys, distinct within each object. */
  predicate SnakeShaped(j: Json)
    decreases j
  {
    match j
    case JObject(ms) => DistinctKeys(ms) && forall i | 0 <= i < |ms| :: IsSnakeKey(ms[i].key) && SnakeShaped(ms[i].value)
    case JList(xs) => forall i | 0 <= i < |xs| :: SnakeShaped(xs[i])
    case _ => true
  }

  /** A snake-shaped body camelized for the frontend and snakified back is the same body. */
  lemma {:induction false} CamelizeSnakifyRoundTrip(j: Json)
    requires SnakeShaped(j)
    ensures KeysNonEmpty(Camelize(j))
    ensures Snakify(Camelize(j)) == j
    decreases j
  {
    match j
    case JObject(ms) =>
      var converted := seq(|ms|, i requires 0 <= i < |ms| => Member(ToCamelCase(ms[i].key), Camelize(ms[i].value)));
      forall i | 0 <= i < |ms|
        ensures converted[i].key != [] && SnakeCase(converted[i].key) == ms[i].key
        ensures KeysNonEmpty(converted[i].value) && Snakify(converted[i].value) == ms[i].value
      {
        SnakeCamelRoundTrip(ms[i].key);
        CamelizeSnakifyRoundTrip(ms[i].value);
      }
      assert DistinctKeys(converted) by {
        forall a, b | 0 <= a < b < |converted|
          ensures converted[a].key != converted[b].key
        {
          assert ms[a].key != ms[b].key;
        }
      }
      CollectDistinct(converted);
      assert Camelize(j) == JObject(converted);
      var back := seq(|converted|, i requires 0 <= i < |converted| => Member(SnakeCase(converted[i].key), Snakify(converted[i].value)));
      assert back == ms;
      CollectDistinct(ms);
    case JList(xs) =>
      forall i | 0 <= i < |xs|
        ensures KeysNonEmpty(Camelize(xs[i])) && Snakify(Camelize(xs[i])) == xs[i]
      {
        CamelizeSnakifyRoundTrip(xs[i]);
      }
      assert Snakify(Camelize(j)).items == xs;
    case _ =>
  }
}
