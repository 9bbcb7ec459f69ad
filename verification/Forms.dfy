// Form bodies: `axil_query_parse` into the query table and `axil_query_param`
// out of it.
module Forms {
  import opened Text
  import Escape

  type Table = map<string, string>

  /** What sscanf("%2x") leaves behind when the two characters are not both
      hexadecimal digits, given the text it starts in; it skips blanks, and the
      code does not look at its result. */
  type OddHex = string -> char

  // ---- What a body means ----

  /** The tokens strtok_r finds: non-empty stretches between '&'. */
  function Tokens(s: string): seq<string>
    decreases |s|
  {
    if s == "" then []
    else if s[0] == '&' then Tokens(s[1..])
    else
      var t := Token(s);
      [t] + Tokens(s[|t|..])
  }

  function Token(s: string): (t: string)
    requires s != "" && s[0] != '&'
    ensures 0 < |t| <= |s| && t == s[..|t|] && '&' !in t
    ensures |t| < |s| ==> s[|t|] == '&'
  {
    Before(s, '&')
  }

  /** The value part of a pair, decoded. */
  function FormDecode(s: string, odd: OddHex): (r: string)
    ensures |r| <= |s|
  {
    if s == "" then ""
    else if s[0] == '+' then " " + FormDecode(s[1..], odd)
    else if s[0] == '%' && |s| >= 3 then
      [if IsHex(s[1]) && IsHex(s[2]) then HexByte(s[1], s[2]) else odd(s[1..])] + FormDecode(s[3..], odd)
    else [s[0]] + FormDecode(s[1..], odd)
  }

  /** Storing one pair; the stored value is a C string. */
  function Put(db: Table, pair: string, odd: OddHex): Table {
    var key := Before(pair, '=');
    if |key| == |pair| then db
    else db[key := Before(FormDecode(pair[|key| + 1..], odd), '\0')]
  }

  function PutAll(db: Table, pairs: seq<string>, odd: OddHex): Table
    decreases |pairs|
  {
    if pairs == [] then db else PutAll(Put(db, pairs[0], odd), pairs[1..], odd)
  }

  /** What one step of the tokenizer does to the rest of the parse. */
  lemma TokensStep(body: string, pos: nat, db: Table, odd: OddHex)
    requires pos < |body|
    ensures if body[pos] == '&' then Tokens(body[pos..]) == Tokens(body[pos+1..])
            else
              var pair := Token(body[pos..]);
              PutAll(db, Tokens(body[pos..]), odd) == PutAll(Put(db, pair, odd), Tokens(body[pos+|pair|..]), odd)
  {
    var s := body[pos..];
    assert s[1..] == body[pos+1..];
    if s[0] != '&' {
      var pair := Token(s);
      assert s[|pair|..] == body[pos+|pair|..];
      var rest := Tokens(body[pos+|pair|..]);
      assert Tokens(s) == [pair] + rest && ([pair] + rest)[1..] == rest;
    }
  }

  // ---- The code ----

  class QueryDb {
    var db: Table

    constructor ()
      ensures db == map[]
    {
      db := map[];
    }

    /** `axil_query_parse`; nothing of an earlier parse is kept. */
    method Parse(body: string, odd: OddHex) returns (ret: int)
      requires CText(body)
      modifies this
      ensures ret == 0 && db == PutAll(map[], Tokens(body), odd)
    {
      db := map[];
      if body == "" {
        return 0;
      }
      var pos := 0;
      ghost var all := PutAll(map[], Tokens(body), odd);
      assert body[0..] == body;
      while pos < |body|
        invariant 0 <= pos <= |body|
        invariant all == PutAll(db, Tokens(body[pos..]), odd)
        decreases |body| - pos
      {
        pos := ParseStep(body, pos, odd);
      }
      assert body[|body|..] == "";
      return 0;
    }

    /** One step of the tokenizer, and the pair it finds. */
    method ParseStep(body: string, pos: nat, odd: OddHex) returns (next: nat)
      requires pos < |body|
      modifies this
      ensures pos < next <= |body|
      ensures PutAll(db, Tokens(body[next..]), odd) == PutAll(old(db), Tokens(body[pos..]), odd)
    {
      TokensStep(body, pos, db, odd);
      if body[pos] == '&' {
        return pos + 1;
      }
      var pair := Token(body[pos..]);
      StorePair(pair, odd);
      return pos + |pair|;
    }

    method StorePair(pair: string, odd: OddHex)
      modifies this
      ensures db == Put(old(db), pair, odd)
    {
      var key := Before(pair, '=');
      if |key| < |pair| {
        var decoded := DecodeValue(pair[|key| + 1..], odd);
        db := db[key := Before(decoded, '\0')];
      }
    }

    /** `axil_query_param`: the value, cut only by the size of the buffer. */
    method Param(name: string, buf: array<char>) returns (ret: int)
      modifies buf
      ensures buf.Length == 0 ==> ret == -1
      ensures buf.Length > 0 && name !in db ==> ret == -1 && buf[0] == '\0'
      ensures buf.Length > 0 && name in db ==>
        ret == (if |db[name]| < buf.Length then |db[name]| else buf.Length - 1) &&
        buf[..ret] == db[name][..ret] && buf[ret] == '\0'
    {
      if buf.Length == 0 {
        return -1;
      }
      buf[0] := '\0';
      if name !in db {
        return -1;
      }
      var val := db[name];
      ret := |val|;
      if ret >= buf.Length {
        ret := buf.Length - 1;
      }
      forall i | 0 <= i < ret {
        buf[i] := val[i];
      }
      buf[ret] := '\0';
    }
  }

  /** The character decoded at `i`, and where the loop goes on. */
  function DecodeAt(s: string, i: nat, odd: OddHex): (r: (char, nat))
    requires i < |s|
    ensures i < r.1 <= |s|
  {
    if s[i] == '+' then (' ', i + 1)
    else if s[i] == '%' && i + 2 < |s| then
      (if IsHex(s[i+1]) && IsHex(s[i+2]) then HexByte(s[i+1], s[i+2]) else odd(s[i+1..]), i + 3)
    else (s[i], i + 1)
  }

  lemma DecodeStep(s: string, i: nat, odd: OddHex)
    requires i < |s|
    ensures FormDecode(s[i..], odd) == [DecodeAt(s, i, odd).0] + FormDecode(s[DecodeAt(s, i, odd).1..], odd)
  {
    var t := s[i..];
    assert t[1..] == s[i+1..];
    if |t| >= 3 {
      assert t[3..] == s[i+3..] && t[1] == s[i+1] && t[2] == s[i+2];
    }
  }

  /** The decoding loop of `axil_query_parse`. */
  method DecodeValue(value: string, odd: OddHex) returns (decoded: string)
    ensures decoded == FormDecode(value, odd)
  {
    decoded := "";
    var i := 0;
    ghost var rest := FormDecode(value, odd);
    assert value[0..] == value;
    while i < |value|
      invariant 0 <= i <= |value|
      invariant rest == FormDecode(value[i..], odd) && FormDecode(value, odd) == decoded + rest
    {
      DecodeStep(value, i, odd);
      var (c, next) := DecodeAt(value, i, odd);
      rest := FormDecode(value[next..], odd);
      Assoc(decoded, [c], rest);
      decoded := decoded + [c];
      i := next;
    }
  }

  // ---- Round trip ----

  type Field = (string, string)

  predicate GoodKey(k: string) { CText(k) && '&' !in k && '=' !in k }

  predicate GoodFields(fs: seq<Field>) {
    && (forall i :: 0 <= i < |fs| ==> GoodKey(fs[i].0) && CText(fs[i].1))
    && (forall i, j :: 0 <= i < j < |fs| ==> fs[i].0 != fs[j].0)
  }

  function Pair(f: Field): string
    requires CText(f.1)
  {
    f.0 + "=" + Escape.UrlEncode(f.1)
  }

  /** How a client writes a form. */
  function Print(fs: seq<Field>): string
    requires GoodFields(fs)
  {
    if fs == [] then ""
    else if |fs| == 1 then Pair(fs[0])
    else Pair(fs[0]) + "&" + Print(fs[1..])
  }

  function Pairs(fs: seq<Field>): seq<string>
    requires GoodFields(fs)
  {
    if fs == [] then [] else [Pair(fs[0])] + Pairs(fs[1..])
  }

  lemma {:induction false} FormDecodeEncoded(v: string, odd: OddHex)
    requires Bytes(v)
    ensures FormDecode(Escape.UrlEncode(v), odd) == v
  {
    if v != "" {
      var e, rest := Escape.EncodeChar(v[0]), Escape.UrlEncode(v[1..]);
      var all := Escape.UrlEncode(v);
      assert all[|e|..] == rest;
      FormDecodeEncoded(v[1..], odd);
      if !Escape.Unreserved(v[0]) {
        assert all[0] == '%' && all[1] == e[1] && all[2] == e[2];
        assert HexByte(e[1], e[2]) == v[0];
      }
    }
  }

  lemma PairShape(f: Field)
    requires GoodKey(f.0) && CText(f.1)
    ensures '&' !in Pair(f) && Before(Pair(f), '=') == f.0
    ensures Pair(f)[|f.0| + 1..] == Escape.UrlEncode(f.1)
  {
    Escape.UrlEncodeAlphabet(f.1);
    var p := Pair(f);
    assert p[..|f.0|] == f.0 && p[|f.0|] == '=';
    BeforeUnique(p, '=', |f.0|);
    forall k | 0 <= k < |p| ensures p[k] != '&' {
      if k > |f.0| {
        assert p[k] == Escape.UrlEncode(f.1)[k - |f.0| - 1];
      }
    }
  }

  lemma PutPair(db: Table, f: Field, odd: OddHex)
    requires GoodKey(f.0) && CText(f.1)
    ensures Put(db, Pair(f), odd) == db[f.0 := f.1]
  {
    PairShape(f);
    FormDecodeEncoded(f.1, odd);
    BeforeAll(f.1, '\0');
  }

  lemma TokenFirst(p: string, rest: string)
    requires p != "" && '&' !in p && (rest == "" || rest[0] == '&')
    ensures Tokens(p + rest) == [p] + Tokens(rest)
  {
    var s := p + rest;
    assert p[0] in p && s[0] == p[0] && s[..|p|] == p && s[|p|..] == rest;
    BeforeUnique(s, '&', |p|);
  }

  lemma SkipAmpersand(s: string)
    ensures Tokens("&" + s) == Tokens(s)
  {
    assert ("&" + s)[1..] == s;
  }

  lemma PrintFirst(fs: seq<Field>)
    requires GoodFields(fs) && fs != []
    ensures Print(fs) == Pair(fs[0]) + if |fs| == 1 then "" else "&" + Print(fs[1..])
  {
    if |fs| == 1 {
      assert Pair(fs[0]) + "" == Pair(fs[0]);
    } else {
      Assoc(Pair(fs[0]), "&", Print(fs[1..]));
    }
  }

  lemma {:induction false} TokensOfPrint(fs: seq<Field>)
    requires GoodFields(fs)
    ensures Tokens(Print(fs)) == Pairs(fs)
  {
    if fs != [] {
      var p := Pair(fs[0]);
      PairShape(fs[0]);
      TokensOfPrint(fs[1..]);
      PrintFirst(fs);
      if |fs| > 1 {
        TokenFirst(p, "&" + Print(fs[1..]));
        SkipAmpersand(Print(fs[1..]));
      } else {
        TokenFirst(p, "");
      }
    }
  }

  predicate IsKey(fs: seq<Field>, k: string) { exists i :: 0 <= i < |fs| && fs[i].0 == k }

  /** `r` is `db` with the fields stored on top. */
  ghost predicate Holds(db: Table, r: Table, fs: seq<Field>) {
    && (forall k :: k in r <==> k in db || IsKey(fs, k))
    && (forall i :: 0 <= i < |fs| ==> r[fs[i].0] == fs[i].1)
    && (forall k :: k in db && !IsKey(fs, k) ==> r[k] == db[k])
  }

  lemma HoldsStep(db: Table, r: Table, fs: seq<Field>)
    requires GoodFields(fs) && fs != [] && Holds(db[fs[0].0 := fs[0].1], r, fs[1..])
    ensures Holds(db, r, fs)
  {
    var rest := fs[1..];
    forall k ensures IsKey(fs, k) <==> IsKey(rest, k) || k == fs[0].0 {
      if i :| 0 <= i < |rest| && rest[i].0 == k {
        assert fs[i + 1].0 == k;
      }
      if i :| 0 < i < |fs| && fs[i].0 == k {
        assert rest[i - 1].0 == k;
      }
    }
    assert forall i :: 0 < i < |fs| ==> fs[i] == rest[i - 1];
    assert !IsKey(rest, fs[0].0);
  }

  lemma {:induction false} PutAllFields(db: Table, fs: seq<Field>, odd: OddHex)
    requires GoodFields(fs)
    ensures Holds(db, PutAll(db, Pairs(fs), odd), fs)
    decreases |fs|
  {
    if fs != [] {
      PutPair(db, fs[0], odd);
      PutAllFields(db[fs[0].0 := fs[0].1], fs[1..], odd);
      assert Pairs(fs)[1..] == Pairs(fs[1..]);
      HoldsStep(db, PutAll(db, Pairs(fs), odd), fs);
    }
  }

  lemma {:induction false} PrintIsText(fs: seq<Field>)
    requires GoodFields(fs)
    ensures CText(Print(fs))
  {
    if fs != [] {
      Escape.UrlEncodeAlphabet(fs[0].1);
      PlainIsText(Escape.UrlEncode(fs[0].1));
      PrintIsText(fs[1..]);
    }
  }

  lemma PlainIsText(s: string)
    requires forall k :: 0 <= k < |s| ==> Escape.Plain(s[k])
    ensures CText(s)
  {
  }

  /** Parsing a printed form gives exactly its fields. */
  lemma FormRoundTrip(fs: seq<Field>, odd: OddHex)
    requires GoodFields(fs)
    ensures CText(Print(fs)) && Holds(map[], PutAll(map[], Tokens(Print(fs)), odd), fs)
  {
    PrintIsText(fs);
    TokensOfPrint(fs);
    PutAllFields(map[], fs, odd);
  }

  /** The whole path: whatever the table held, parsing and looking up returns a
      value cut only by the buffer. */
  method ParseAndRead(fs: seq<Field>, query: QueryDb, odd: OddHex, buf: array<char>, i: nat) returns (ret: int)
    requires GoodFields(fs) && i < |fs| && buf.Length > 0
    modifies query, buf
    ensures Holds(map[], query.db, fs)
    ensures var v := fs[i].1;
            ret == (if |v| < buf.Length then |v| else buf.Length - 1) && buf[..ret] == v[..ret] && buf[ret] == '\0'
  {
    FormRoundTrip(fs, odd);
    var _ := query.Parse(Print(fs), odd);
    ret := query.Param(fs[i].0, buf);
  }

  /** Values mean the same in a form as in a URL. */
  lemma {:induction false} FormDecodeMeans(ps: seq<Escape.Piece>, odd: OddHex)
    requires Escape.AllOk(ps)
    ensures FormDecode(Escape.Written(ps), odd) == Escape.Meaning(ps)
  {
    if ps != [] {
      FormDecodeMeans(ps[1..], odd);
      OnePiece(ps[0], Escape.Written(ps[1..]), odd);
      assert Escape.Meaning(ps) == [ps[0].Means()] + Escape.Meaning(ps[1..]);
    }
  }

  lemma OnePiece(p: Escape.Piece, rest: string, odd: OddHex)
    requires p.Ok()
    ensures FormDecode(p.Text() + rest, odd) == [p.Means()] + FormDecode(rest, odd)
  {
    var s := p.Text() + rest;
    assert s[|p.Text()|..] == rest && s[0] == p.Text()[0];
    assert p.Escaped? ==> s[1] == p.hi && s[2] == p.lo;
  }
}
