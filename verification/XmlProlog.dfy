/** The scanner that finds a document's root element and refuses a DOCTYPE, and
    the envelope wrapping built on it (soap_client.py). */
module XmlProlog {
  import opened Text

  // ----- The prolog grammar, as the code reads it -----

  /** What Python's `str.isspace` accepts. */
  predicate IsSpace(c: char) {
    var n := c as int;
    || 0x09 <= n <= 0x0D || 0x1C <= n <= 0x20 || n == 0x85 || n == 0xA0
    || n == 0x1680 || 0x2000 <= n <= 0x200A || n == 0x2028 || n == 0x2029
    || n == 0x202F || n == 0x205F || n == 0x3000
  }

  predicate IsBlank(c: char) {
    IsSpace(c) || c as int == 0xFEFF
  }

  ghost predicate Absent(s: string, t: string, from: nat, to: int) {
    forall k: nat :: from <= k < to ==> !OccursAt(s, t, k)
  }

  /** `t[a..m]` opens with `open` and its first `close` after that ends it. */
  ghost predicate Delimited(t: string, a: nat, m: nat, open: string, close: string) {
    && OccursAt(open, t, a)
    && a + |open| + |close| <= m
    && OccursAt(close, t, m - |close|)
    && Absent(close, t, a + |open|, m - |close|)
  }

  /** Item ::= blank | processing instruction | comment, spelled by `t[a..m]`. */
  ghost predicate Item(t: string, a: nat, m: nat) {
    a < m <= |t| &&
    (|| (IsBlank(t[a]) && m == a + 1)
     || Delimited(t, a, m, "<?", "?>")
     || Delimited(t, a, m, "<!--", "-->"))
  }

  /** Prolog ::= empty | Item Prolog, spelled by `t[a..b]`. */
  ghost predicate Prolog(t: string, a: nat, b: nat)
    decreases b - a
  {
    a <= b <= |t| && (a == b || exists m :: a < m <= b && Item(t, a, m) && Prolog(t, m, b))
  }

  /** A `<` that opens neither an instruction nor a declaration. */
  predicate RootAt(t: string, i: nat) {
    i < |t| && t[i] == '<' && (i + 1 < |t| ==> t[i + 1] != '?' && t[i + 1] != '!')
  }

  predicate DeclarationAt(t: string, i: nat) {
    OccursAt("<!", t, i) && !OccursAt("<!--", t, i)
  }

  // ----- The scanner -----

  datatype Scan = Root(at: nat) | NoRoot | Unsafe

  /** Python's `str.find`: the first occurrence at or after `from`, or -1. */
  function Find(t: string, s: string, from: nat): (at: int)
    ensures at == -1 || (from <= at && OccursAt(s, t, at))
    ensures forall k: nat :: from <= k && (at == -1 || k < at) ==> !OccursAt(s, t, k)
    decreases |t| - from
  {
    if from + |s| > |t| then -1
    else if OccursAt(s, t, from) then from
    else Find(t, s, from + 1)
  }

  function ScanFrom(t: string, cursor: nat): (r: Scan)
    ensures r.Root? ==> cursor <= r.at < |t| && t[r.at] == '<'
    decreases |t| - cursor
  {
    if cursor >= |t| then NoRoot
    else if IsBlank(t[cursor]) then ScanFrom(t, cursor + 1)
    else if t[cursor] != '<' then NoRoot
    else if OccursAt("<?", t, cursor) then
      var closed := Find(t, "?>", cursor + 2);
      if closed < 0 then NoRoot else ScanFrom(t, closed + 2)
    else if OccursAt("<!--", t, cursor) then
      var closed := Find(t, "-->", cursor + 4);
      if closed < 0 then NoRoot else ScanFrom(t, closed + 3)
    else if OccursAt("<!", t, cursor) then Unsafe
    else Root(cursor)
  }

  /** The loop over a cursor. What its answer means is ScanReadsProlog. */
  method ScanProlog(t: string) returns (r: Scan)
    ensures r == ScanFrom(t, 0)
  {
    var cursor, end := 0, |t|;
    while cursor < end
      invariant ScanFrom(t, 0) == ScanFrom(t, cursor)
      decreases end - cursor
    {
      var c := t[cursor];
      if IsBlank(c) {
        cursor := cursor + 1;
        continue;
      }
      if c != '<' {
        return NoRoot;
      }
      if OccursAt("<?", t, cursor) {
        var closed := Find(t, "?>", cursor + 2);
        if closed < 0 {
          return NoRoot;
        }
        cursor := closed + 2;
        continue;
      }
      if OccursAt("<!--", t, cursor) {
        var closed := Find(t, "-->", cursor + 4);
        if closed < 0 {
          return NoRoot;
        }
        cursor := closed + 3;
        continue;
      }
      if OccursAt("<!", t, cursor) {
        return Unsafe;
      }
      return Root(cursor);
    }
    return NoRoot;
  }

  // ----- The scanner reads the grammar -----

  /** Where the item opening at `a` ends, or -1 when none opens there. */
  function ItemEnd(t: string, a: nat): (b: int)
    ensures b == -1 || a < b <= |t|
  {
    if a >= |t| then -1
    else if IsBlank(t[a]) then a + 1
    else if OccursAt("<?", t, a) then
      var closed := Find(t, "?>", a + 2);
      if closed < 0 then -1 else closed + 2
    else if OccursAt("<!--", t, a) then
      var closed := Find(t, "-->", a + 4);
      if closed < 0 then -1 else closed + 3
    else -1
  }

  lemma DelimitedEnd(t: string, a: nat, m: nat, open: string, close: string)
    requires a + |open| + |close| <= m
    ensures Delimited(t, a, m, open, close)
       <==> OccursAt(open, t, a) && m == Find(t, close, a + |open|) + |close|
  {}

  /** Only one item can open at a given place. */
  lemma ItemIsUnique(t: string, a: nat, m: nat)
    ensures Item(t, a, m) <==> m == ItemEnd(t, a)
  {
    TwoChars(t, a);
    if a + 4 <= m { DelimitedEnd(t, a, m, "<?", "?>"); }
    if a + 7 <= m { DelimitedEnd(t, a, m, "<!--", "-->"); }
  }

  /** Reading a prolog means reading its first item, then a prolog. */
  lemma PrologStep(t: string, a: nat, b: nat)
    requires a < b <= |t|
    ensures Prolog(t, a, b) <==> ItemEnd(t, a) != -1 && Prolog(t, ItemEnd(t, a), b)
  {
    var e := ItemEnd(t, a);
    if Prolog(t, a, b) {
      var m :| a < m <= b && Item(t, a, m) && Prolog(t, m, b);
      ItemIsUnique(t, a, m);
    } else if e != -1 && Prolog(t, e, b) {
      ItemIsUnique(t, a, e);
      assert false;
    }
  }

  lemma TwoChars(t: string, i: nat)
    ensures OccursAt("<!", t, i) <==> i + 1 < |t| && t[i] == '<' && t[i + 1] == '!'
    ensures OccursAt("<?", t, i) <==> i + 1 < |t| && t[i] == '<' && t[i + 1] == '?'
    ensures OccursAt("<!--", t, i) ==> OccursAt("<!", t, i)
  {}

  /** The answer is the root's position exactly when a prolog leads up to a
      root there, and a refusal exactly when one leads up to a declaration that
      is not a comment. */
  lemma {:induction false} ScanReadsProlog(t: string, a: nat)
    requires a <= |t|
    ensures forall i: nat :: ScanFrom(t, a) == Root(i) <==> Prolog(t, a, i) && RootAt(t, i)
    ensures ScanFrom(t, a) == Unsafe <==> exists i: nat :: Prolog(t, a, i) && DeclarationAt(t, i)
    decreases |t| - a
  {
    var e := ItemEnd(t, a);
    TwoChars(t, a);
    forall i: nat | a < i <= |t| ensures Prolog(t, a, i) <==> e != -1 && Prolog(t, e, i) {
      PrologStep(t, a, i);
    }
    if e != -1 {
      ScanReadsProlog(t, e);
      assert ScanFrom(t, a) == ScanFrom(t, e);
      assert !RootAt(t, a) && !DeclarationAt(t, a);
    } else {
      assert Prolog(t, a, a);
      assert forall i: nat :: Prolog(t, a, i) ==> i == a;
    }
  }

  /** A found root does not depend on anything after the character that
      follows its `<`. */
  lemma {:induction false} RootIsStable(t: string, u: string, i: nat)
    requires ScanFrom(t, 0) == Root(i)
    requires i + 2 <= |t| && i + 2 <= |u| && t[..i + 2] == u[..i + 2]
    ensures ScanFrom(u, 0) == Root(i)
  {
    RootSpelled(t, i);
    PrologIsStable(t, u, 0, i, i + 2);
    RootAtIsStable(t, u, i);
    RootSpelled(u, i);
  }

  lemma RootAtIsStable(t: string, u: string, i: nat)
    requires RootAt(t, i) && i + 2 <= |t| && i + 2 <= |u| && t[..i + 2] == u[..i + 2]
    ensures RootAt(u, i)
  {}

  lemma RootSpelled(t: string, i: nat)
    ensures ScanFrom(t, 0) == Root(i) <==> Prolog(t, 0, i) && RootAt(t, i)
  {
    ScanReadsProlog(t, 0);
  }

  lemma SamePrefix(t: string, u: string, b: nat)
    requires b <= |t| && b <= |u| && t[..b] == u[..b]
    ensures forall k :: 0 <= k < b ==> t[k] == u[k]
  {}

  lemma OccursInBoth(s: string, t: string, u: string, i: nat, b: nat)
    requires b <= |t| && b <= |u| && t[..b] == u[..b] && i + |s| <= b
    ensures OccursAt(s, t, i) <==> OccursAt(s, u, i)
  {
    SamePrefix(t, u, b);
    assert t[i..i + |s|] == u[i..i + |s|];
  }

  lemma ItemIsStable(t: string, u: string, a: nat, m: nat, b: nat)
    requires Item(t, a, m) && m <= b <= |t| && b <= |u| && t[..b] == u[..b]
    ensures Item(u, a, m)
  {
    assert t[a] == t[..b][a] == u[..b][a] == u[a];
    forall s: string, i: nat | i + |s| <= m ensures OccursAt(s, t, i) <==> OccursAt(s, u, i) {
      OccursInBoth(s, t, u, i, b);
    }
  }

  lemma {:induction false} PrologIsStable(t: string, u: string, a: nat, b: nat, c: nat)
    requires Prolog(t, a, b) && b <= c <= |t| && c <= |u| && t[..c] == u[..c]
    ensures Prolog(u, a, b)
    decreases b - a
  {
    if a < b {
      var m :| a < m <= b && Item(t, a, m) && Prolog(t, m, b);
      ItemIsStable(t, u, a, m, c);
      PrologIsStable(t, u, m, b, c);
    }
  }

  // ----- The root's name -----

  predicate EndsName(c: char) {
    IsSpace(c) || c == '>' || c == '/'
  }

  /** The text after the last `:`, or all of it. */
  function LocalPart(name: string): string {
    if name == "" || name[|name| - 1] == ':' then ""
    else LocalPart(name[..|name| - 1]) + [name[|name| - 1]]
  }

  function NameEnd(t: string, cursor: nat): (end: nat)
    requires cursor <= |t|
    ensures cursor <= end <= |t|
    ensures forall k :: cursor <= k < end ==> !EndsName(t[k])
    ensures end == |t| || EndsName(t[end])
    decreases |t| - cursor
  {
    if cursor < |t| && !EndsName(t[cursor]) then NameEnd(t, cursor + 1) else cursor
  }

  datatype Result<+T> = Ok(value: T) | UnsafeXml

  function NameAt(t: string, start: nat): string
    requires start < |t|
  {
    LocalPart(t[start + 1..NameEnd(t, start + 1)])
  }

  function RootName(t: string): Result<string> {
    match ScanFrom(t, 0)
    case Unsafe => UnsafeXml
    case NoRoot => Ok("")
    case Root(start) => Ok(NameAt(t, start))
  }

  method RootElementName(t: string) returns (r: Result<string>)
    ensures r == RootName(t)
  {
    var scan := ScanProlog(t);
    match scan
    case Unsafe => return UnsafeXml;
    case NoRoot => return Ok("");
    case Root(start) =>
      var cursor, end := start + 1, |t|;
      while cursor < end && !EndsName(t[cursor])
        invariant start < cursor <= end
        invariant NameEnd(t, start + 1) == NameEnd(t, cursor)
      {
        cursor := cursor + 1;
      }
      return Ok(LocalPart(t[start + 1..cursor]));
  }

  /** What stands before the last `:` is dropped, and nothing else. */
  ghost predicate IsLocal(name: string, local: string) {
    ':' !in local && (name == local || exists prefix :: name == prefix + ":" + local)
  }

  lemma {:induction false} LocalPartIsLocal(name: string)
    ensures IsLocal(name, LocalPart(name))
    decreases |name|
  {
    if name != "" && name[|name| - 1] != ':' {
      var front, last := name[..|name| - 1], [name[|name| - 1]];
      LocalPartIsLocal(front);
      if front != LocalPart(front) {
        var prefix :| front == prefix + ":" + LocalPart(front);
        assert name == prefix + ":" + (LocalPart(front) + last);
      }
    } else if name != "" {
      assert name == name[..|name| - 1] + ":" + "";
    }
  }

  lemma {:induction false} LocalIsUnique(name: string, local: string)
    requires IsLocal(name, local)
    ensures local == LocalPart(name)
  {
    LocalPartIsLocal(name);
    if name == local {
      assert forall prefix :: (prefix + ":" + LocalPart(name))[|prefix|] == ':';
    } else {
      var prefix :| name == prefix + ":" + local;
      LocalAfterColon(prefix, local);
    }
  }

  /** The root's qualified name runs up to `end`, and ends in `local`. */
  ghost predicate Spells(t: string, start: nat, end: nat, local: string) {
    && start < end <= |t| && (forall k :: start < k < end ==> !EndsName(t[k])) && (end < |t| ==> EndsName(t[end]))
    && IsLocal(t[start + 1..end], local)
  }

  /** The answer is the local name spelled at the root, and no other. */
  lemma RootNameReads(t: string, start: nat, local: string)
    requires ScanFrom(t, 0) == Root(start)
    ensures RootName(t) == Ok(local) <==> exists end: nat :: Spells(t, start, end, local)
  {
    var end := NameEnd(t, start + 1);
    LocalPartIsLocal(t[start + 1..end]);
    assert Spells(t, start, end, NameAt(t, start));
    forall other: nat | Spells(t, start, other, local) ensures NameAt(t, start) == local {
      assert other == end;
      LocalIsUnique(t[start + 1..end], local);
    }
  }

  // ----- The envelope -----

  datatype Version = Soap11 | Soap12

  const DECLARED := "xml version=\"1.0\" encoding=\"utf-8\""
  const ROOT := "soap" + ":" + "Envelope"
  const TAG := "<soap:Envelope xmlns:soap=\""

  function Namespace(version: Version): string {
    if version == Soap11
    then "http://schemas.xmlsoap.org/soap/envelope/"
    else "http://www.w3.org/2003/05/soap-envelope"
  }

  datatype Header = NoHeader | Header(text: string)

  const CLOSING := "</soap:Body></soap:Envelope>"

  /** The header block of the envelope, when headers were given. */
  function Block(headers: Header): string {
    if headers.Header? then "<soap:Header>" + headers.text + "</soap:Header>" else ""
  }

  function Opening(version: Version, headers: Header): string {
    " xmlns:soap=\"" + Namespace(version) + "\">"
    + Block(headers) + "<soap:Body>"
  }

  function AfterRoot(body: string, version: Version, headers: Header): string {
    Opening(version, headers) + body + CLOSING
  }

  function Wrapped(body: string, version: Version, headers: Header): string {
    ("<?" + DECLARED + "?>") + ("<" + ROOT + AfterRoot(body, version, headers))
  }

  function BuildEnvelope(body: string, version: Version, headers: Header): Result<string> {
    match RootName(body)
    case UnsafeXml => UnsafeXml
    case Ok(name) => if name == "Envelope" then Ok(body) else Ok(Wrapped(body, version, headers))
  }

  lemma InstructionIsItem(t: string, n: nat)
    requires 2 <= n && n + 2 <= |t| && t[0..2] == "<?" && t[n..n + 2] == "?>" && '?' !in t[2..n]
    ensures Item(t, 0, n + 2)
  {
    forall k: nat | 2 <= k < n ensures !OccursAt("?>", t, k) {
      assert t[k] == t[2..n][k - 2] && t[2..n][k - 2] in t[2..n];
      if k + 2 <= |t| { assert t[k..k + 2][0] == t[k]; }
    }
    assert Delimited(t, 0, n + 2, "<?", "?>");
  }

  lemma RootFound(t: string, n: nat)
    requires Item(t, 0, n) && RootAt(t, n)
    ensures ScanFrom(t, 0) == Root(n)
  {
    assert Prolog(t, n, n);
    assert Prolog(t, 0, n);
    RootSpelled(t, n);
  }

  lemma Laid(t: string, n: nat, name: string, after: string)
    requires n < |t| && t[n..] == "<" + name + after && name != "" && after != ""
    ensures t[n] == '<' && t[n + 1] == name[0]
    ensures n + 1 + |name| < |t| && t[n + 1..n + 1 + |name|] == name && t[n + 1 + |name|] == after[0]
  {}

  lemma {:induction false} NameRead(t: string, n: nat, name: string)
    requires n + 1 + |name| < |t| && t[n + 1..n + 1 + |name|] == name && EndsName(t[n + 1 + |name|])
    requires forall k :: 0 <= k < |name| ==> !EndsName(name[k])
    ensures NameAt(t, n) == LocalPart(name)
  {}

  /** A prolog item followed by an element: the element is the root. */
  lemma RootNameAt(t: string, n: nat)
    requires Item(t, 0, n) && RootAt(t, n)
    ensures RootName(t) == Ok(NameAt(t, n))
  {
    RootFound(t, n);
  }

  /** A body is refused exactly when a prolog leads up to a declaration in it
      that is no comment, whatever version and headers were asked for. */
  lemma {:induction false} RefusesExactly(body: string, version: Version, headers: Header)
    ensures BuildEnvelope(body, version, headers) == UnsafeXml
       <==> exists i: nat :: Prolog(body, 0, i) && DeclarationAt(body, i)
  {
    ScanReadsProlog(body, 0);
  }

  lemma {:induction false} LocalAfterColon(prefix: string, local: string)
    requires ':' !in local
    ensures LocalPart(prefix + ":" + local) == local
  {
    if local != "" {
      var n, whole := |local| - 1, prefix + ":" + local;
      assert whole[..|whole| - 1] == prefix + ":" + local[..n];
      LocalAfterColon(prefix, local[..n]);
      assert local[n] in local && local == local[..n] + [local[n]];
    }
  }

  lemma RootSpelling()
    ensures ROOT[0] == 's' && forall k :: 0 <= k < |ROOT| ==> !EndsName(ROOT[k])
  {}

  lemma LeadLaid(body: string, tail: string)
    ensures var t, n := ("<?" + body + "?>") + tail, |body| + 2;
      n + 2 <= |t| && t[0..2] == "<?" && t[2..n] == body && t[n..n + 2] == "?>" && t[n + 2..] == tail
  {}

  lemma DeclaredRoot(body: string, name: string, after: string)
    requires '?' !in body && after != "" && EndsName(after[0])
    requires name != "" && name[0] != '?' && name[0] != '!' && forall k :: 0 <= k < |name| ==> !EndsName(name[k])
    ensures ScanFrom(("<?" + body + "?>") + ("<" + name + after), 0) == Root(|body| + 4)
  {
    var tail := "<" + name + after;
    var t, n := ("<?" + body + "?>") + tail, |body| + 4;
    LeadLaid(body, tail);
    Laid(t, n, name, after);
    InstructionIsItem(t, n - 2);
    RootFound(t, n);
  }

  /** An instruction followed by an element: the element is the root. */
  lemma Declared(body: string, name: string, after: string)
    requires '?' !in body && after != "" && EndsName(after[0])
    requires name != "" && name[0] != '?' && name[0] != '!' && forall k :: 0 <= k < |name| ==> !EndsName(name[k])
    ensures RootName(("<?" + body + "?>") + ("<" + name + after)) == Ok(LocalPart(name))
  {
    var tail := "<" + name + after;
    var t, n := ("<?" + body + "?>") + tail, |body| + 4;
    LeadLaid(body, tail);
    Laid(t, n, name, after);
    InstructionIsItem(t, n - 2);
    RootNameAt(t, n);
    NameRead(t, n, name);
  }

  lemma DeclaredPlain()
    ensures '?' !in DECLARED
  {}

  /** Whatever was asked for, an envelope comes out: the answer always reads
      back as one. */
  lemma {:induction false} EnvelopeReadsBack(body: string, version: Version, headers: Header)
    requires BuildEnvelope(body, version, headers).Ok?
    ensures RootName(BuildEnvelope(body, version, headers).value) == Ok("Envelope")
  {
    DeclaredPlain();
    RootSpelling();
    LocalAfterColon("soap", "Envelope");
    Declared(DECLARED, ROOT, AfterRoot(body, version, headers));
  }

  /** A second wrapping changes nothing, whatever version or headers it asks
      for. */
  lemma EnvelopeIsIdempotent(body: string, version: Version, headers: Header, again: Version, others: Header)
    requires BuildEnvelope(body, version, headers).Ok?
    ensures BuildEnvelope(BuildEnvelope(body, version, headers).value, again, others)
         == BuildEnvelope(body, version, headers)
  {
    EnvelopeReadsBack(body, version, headers);
  }

  /** The root found has the local name `Envelope`. */
  ghost predicate IsEnvelope(t: string) {
    exists root: nat, end: nat :: Prolog(t, 0, root) && RootAt(t, root) && Spells(t, root, end, "Envelope")
  }

  lemma {:induction false} EnvelopeNamed(t: string)
    ensures RootName(t) == Ok("Envelope") <==> IsEnvelope(t)
  {
    ScanReadsProlog(t, 0);
    match ScanFrom(t, 0)
    case Root(start) => RootNameReads(t, start, "Envelope");
    case _ =>
  }

  /** A body that is no envelope comes out below a root that is bound to the
      namespace of the version asked for, after the headers given; a body that
      is one comes out as it went in. */
  lemma {:induction false} EnvelopeSays(body: string, version: Version, headers: Header)
    requires BuildEnvelope(body, version, headers).Ok?
    ensures var t := BuildEnvelope(body, version, headers).value;
      if IsEnvelope(body) then t == body
      else exists root: nat ::
        && ScanFrom(t, 0) == Root(root) && root <= |t| && t[..root] == "<?" + DECLARED + "?>"
        && t[root..] == TAG + Namespace(version) + "\">" + Block(headers) + "<soap:Body>" + body + CLOSING
  {
    EnvelopeNamed(body);
    if RootName(body) != Ok("Envelope") {
      var after := AfterRoot(body, version, headers);
      DeclaredPlain();
      RootSpelling();
      DeclaredRoot(DECLARED, ROOT, after);
      LeadLaid(DECLARED, "<" + ROOT + after);
      TagLaid(body, version, headers);
    }
  }

  lemma TagLaid(body: string, version: Version, headers: Header)
    ensures "<" + ROOT + AfterRoot(body, version, headers) ==
      TAG + Namespace(version) + "\">" + Block(headers) + "<soap:Body>" + body + CLOSING
  {
    TagSpelled();
    Regrouped("<" + ROOT, " xmlns:soap=\"", Namespace(version), "\">", Block(headers), "<soap:Body>", body, CLOSING);
  }

  lemma TagSpelled()
    ensures "<" + ROOT + " xmlns:soap=\"" == TAG
  {}

  lemma Regrouped(a: string, b: string, c: string, d: string, e: string, f: string, g: string, h: string)
    ensures a + (b + c + d + e + f + g + h) == a + b + c + d + e + f + g + h
  {}

  /** The two versions cannot be mistaken for each other. */
  lemma NamespacesDiffer()
    ensures Namespace(Soap11) != Namespace(Soap12)
  {
    assert |Namespace(Soap11)| != |Namespace(Soap12)|;
  }

  lemma Inside(a: string, b: string, c: string, body: string, d: string)
    ensures OccursAt(body, a + (b + (c + body + d)), |a| + |b| + |c|)
  {}

  /** Wrapped or not, the caller's body is carried character for character. */
  lemma BodyIsCarried(body: string, version: Version, headers: Header)
    requires BuildEnvelope(body, version, headers).Ok?
    ensures Contains(BuildEnvelope(body, version, headers).value, body)
  {
    if BuildEnvelope(body, version, headers).value == body {
      assert OccursAt(body, body, 0);
    } else {
      Inside("<?" + DECLARED + "?>", "<" + ROOT, Opening(version, headers), body, CLOSING);
    }
  }
}
