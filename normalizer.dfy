/**
 * Turning the generative model's free text into the three record families:
 * code fences removed, whitespace trimmed, the object span isolated, the
 * text parsed, and each family defaulted to an empty array.
 */
module Normalizer {
  import opened Wrappers
  import opened Strings
  import opened Json

  /** The two markdown fence markers removed from the model's text. */
  const Fence: string := "```"
  const JsonFence: string := "```json"

  /** Three backticks start at index `i` of `t`. */
  predicate FenceAt(t: string, i: nat)
  {
    i + 3 <= |t| && t[i] == '`' && t[i + 1] == '`' && t[i + 2] == '`'
  }

  /** `t` starts with the tagged marker ```` ```json ````. */
  predicate JsonFenceAt(t: string, i: nat)
  {
    FenceAt(t, i) && i + 7 <= |t| && t[i + 3] == 'j' && t[i + 4] == 's' && t[i + 5] == 'o' && t[i + 6] == 'n'
  }

  /** No fence marker occurs anywhere in `t`. */
  predicate NoFence(t: string)
  {
    forall i | 0 <= i < |t| :: !FenceAt(t, i)
  }

  /**
   * `s.replace(/```json|```/g, "")`: scanning left to right, a fence marker
   * that starts here is deleted, the tagged one tried first, and the scan
   * resumes after it; any other character is kept.
   */
  function StripFences(s: string): (r: string)
    ensures |r| <= |s|
    decreases |s|
  {
    if s == [] then []
    else if JsonFenceAt(s, 0) then StripFences(s[7..])
    else if FenceAt(s, 0) then StripFences(s[3..])
    else [s[0]] + StripFences(s[1..])
  }

  /** A text that does not start with a backtick keeps its first character. */
  lemma StripKeepsHead(s: string)
    requires s != [] && s[0] != '`'
    ensures StripFences(s) == [s[0]] + StripFences(s[1..])
  {
  }

  /**
   * After a lone backtick (one that does not start a marker) the stripped
   * rest never begins with two more backticks.
   */
  lemma NoFenceAfterLoneBacktick(s: string)
    requires s != [] && s[0] == '`' && !FenceAt(s, 0)
    ensures var r := StripFences(s[1..]); !(|r| >= 2 && r[0] == '`' && r[1] == '`')
  {
    var u := s[1..];
    if u != [] {
      if u[0] != '`' {
        StripKeepsHead(u);
      } else {
        assert |s| == 2 || s[2] != '`';
        assert !FenceAt(u, 0);
        assert StripFences(u) == [u[0]] + StripFences(u[1..]);
        if |s| > 2 {
          StripKeepsHead(u[1..]);
        }
      }
    }
  }

  /** Stripping leaves no fence marker behind, not even one formed by joining what surrounded a deleted marker. */
  lemma {:induction false} StripLeavesNoFence(s: string)
    ensures NoFence(StripFences(s))
    decreases |s|
  {
    if s == [] {
    } else if JsonFenceAt(s, 0) {
      StripLeavesNoFence(s[7..]);
    } else if FenceAt(s, 0) {
      StripLeavesNoFence(s[3..]);
    } else {
      var rest := StripFences(s[1..]);
      StripLeavesNoFence(s[1..]);
      var r := [s[0]] + rest;
      assert StripFences(s) == r;
      forall i | 0 <= i < |r| ensures !FenceAt(r, i) {
        if i == 0 {
          if s[0] == '`' {
            NoFenceAfterLoneBacktick(s);
          }
        } else {
          assert !FenceAt(rest, i - 1);
        }
      }
    }
  }

  /** A text without fence markers is left as it is. */
  lemma {:induction false} StripFixesFenceFree(t: string)
    requires NoFence(t)
    ensures StripFences(t) == t
    decreases |t|
  {
    if t != [] {
      assert !FenceAt(t, 0);
      assert NoFence(t[1..]) by {
        forall i | 0 <= i < |t[1..]| ensures !FenceAt(t[1..], i) {
          assert !FenceAt(t, i + 1);
        }
      }
      StripFixesFenceFree(t[1..]);
    }
  }

  /** Stripping twice is stripping once. */
  lemma StripIdempotent(s: string)
    ensures StripFences(StripFences(s)) == StripFences(s)
  {
    StripLeavesNoFence(s);
    StripFixesFenceFree(StripFences(s));
  }

  /** Text without backticks passes through unchanged in front of whatever follows it. */
  lemma {:induction false} StripKeepsPlainPrefix(b: string, t: string)
    requires '`' !in b
    ensures StripFences(b + t) == b + StripFences(t)
    decreases |b|
  {
    if b != [] {
      assert b[0] in b;
      calc {
        StripFences(b + t);
        { StripKeepsHead(b + t); assert (b + t)[1..] == b[1..] + t; }
        [b[0]] + StripFences(b[1..] + t);
        { StripKeepsPlainPrefix(b[1..], t); }
        [b[0]] + (b[1..] + StripFences(t));
        { assert b == [b[0]] + b[1..]; }
        b + StripFences(t);
      }
    } else {
      assert b + t == t;
    }
  }

  /** A body without backticks, wrapped in a tagged fence block, comes out as the bare body. */
  lemma StripFencedBlock(b: string)
    requires '`' !in b
    ensures StripFences(JsonFence + b + Fence) == b
  {
    var s := JsonFence + b + Fence;
    assert JsonFenceAt(s, 0);
    assert s[7..] == b + Fence;
    StripKeepsPlainPrefix(b, Fence);
    assert JsonFenceAt(Fence, 0) == false && FenceAt(Fence, 0);
    assert Fence[3..] == [];
  }

  /**
   * The characters `String.prototype.trim` removes: the ECMAScript white
   * space and line terminator characters.
   */
  predicate IsWs(c: char)
  {
    c == '\t' || c == '\n' || c == '\r' || c == ' ' ||
    c as int == 0x0B || c as int == 0x0C || c as int == 0xA0 || c as int == 0x1680 ||
    (0x2000 <= c as int <= 0x200A) || c as int == 0x2028 || c as int == 0x2029 ||
    c as int == 0x202F || c as int == 0x205F || c as int == 0x3000 || c as int == 0xFEFF
  }

  /** `s` without its leading white space. */
  function TrimStart(s: string): (r: string)
    ensures |r| <= |s| && r == s[|s| - |r|..]
    ensures r == [] || !IsWs(r[0])
    ensures forall i | 0 <= i < |s| - |r| :: IsWs(s[i])
  {
    if s != [] && IsWs(s[0]) then TrimStart(s[1..]) else s
  }

  /** `s` without its trailing white space. */
  function TrimEnd(s: string): (r: string)
    ensures |r| <= |s| && r == s[..|r|]
    ensures r == [] || !IsWs(r[|r| - 1])
    ensures forall i | |r| <= i < |s| :: IsWs(s[i])
  {
    if s != [] && IsWs(s[|s| - 1]) then TrimEnd(s[..|s| - 1]) else s
  }

  /** `s.trim()`: neither end of the result is white space. */
  function Trim(s: string): (r: string)
    ensures r == [] || (!IsWs(r[0]) && !IsWs(r[|r| - 1]))
  {
    TrimEnd(TrimStart(s))
  }

  /** Leading white space ending at `i` is exactly what `TrimStart` removes. */
  lemma {:induction false} TrimStartAt(s: string, i: nat)
    requires i <= |s|
    requires forall k | 0 <= k < i :: IsWs(s[k])
    requires i < |s| ==> !IsWs(s[i])
    ensures TrimStart(s) == s[i..]
    decreases i
  {
    if i > 0 {
      assert IsWs(s[0]);
      TrimStartAt(s[1..], i - 1);
      assert s[1..][i - 1..] == s[i..];
    }
  }

  /** Trailing white space starting at `j` is exactly what `TrimEnd` removes from `s[i..]`. */
  lemma {:induction false} TrimEndAt(s: string, i: nat, j: nat)
    requires i < j <= |s|
    requires forall k | j <= k < |s| :: IsWs(s[k])
    requires !IsWs(s[j - 1])
    ensures TrimEnd(s[i..]) == s[i..j]
    decreases |s| - j
  {
    if j < |s| {
      var t := s[..|s| - 1];
      assert IsWs(s[|s| - 1]);
      assert s[i..][..|s| - i - 1] == t[i..];
      TrimEndAt(t, i, j);
      assert t[i..j] == s[i..j];
    } else {
      assert s[i..j] == s[i..];
    }
  }

  /** Trimming removes white space only: the result is `s[i..j]` for any `i`, `j` with nothing but white space outside and non-space at both ends. */
  lemma TrimCharacterised(s: string, i: nat, j: nat)
    requires i <= j <= |s|
    requires forall k | 0 <= k < i :: IsWs(s[k])
    requires forall k | j <= k < |s| :: IsWs(s[k])
    requires i < j ==> !IsWs(s[i]) && !IsWs(s[j - 1])
    ensures Trim(s) == s[i..j]
  {
    if i < j {
      TrimStartAt(s, i);
      TrimEndAt(s, i, j);
    } else {
      assert TrimStart(s) == [] by {
        forall k | 0 <= k < |s| ensures IsWs(s[k]) {
          if k >= j {
          }
        }
        TrimStartAt(s, |s|);
      }
    }
  }

  /** Trimming twice is trimming once. */
  lemma TrimIdempotent(s: string)
    ensures Trim(Trim(s)) == Trim(s)
  {
    var r := Trim(s);
    TrimCharacterised(r, 0, |r|);
  }

  /** The trimmed text is a piece of the original: `s[i..i + |Trim(s)|]` for some `i`. */
  lemma TrimIsSlice(s: string) returns (i: nat)
    ensures i + |Trim(s)| <= |s| && Trim(s) == s[i..i + |Trim(s)|]
  {
    var a := TrimStart(s);
    i := |s| - |a|;
    var r := TrimEnd(a);
    assert r == a[..|r|];
    assert a[..|r|] == s[i..i + |r|];
  }

  /** Some `{` is followed, somewhere later, by a `}`. */
  predicate HasBraceSpan(s: string)
  {
    exists i, j | 0 <= i < j < |s| :: s[i] == '{' && s[j] == '}'
  }

  /**
   * The match of the greedy pattern `/{[\s\S]*}/` as a half-open range: it
   * starts at the first `{` and ends after the last `}`, and there is one
   * exactly when some `{` precedes some `}`.
   */
  function BraceSpan(s: string): (m: Option<(nat, nat)>)
    ensures m.None? <==> !HasBraceSpan(s)
    ensures m.Some? ==>
      m.value.0 < m.value.1 <= |s| && s[m.value.0] == '{' && s[m.value.1 - 1] == '}' &&
      '{' !in s[..m.value.0] && '}' !in s[m.value.1..]
  {
    match FirstIndex(s, '{')
    case None => None
    case Some(i) =>
      match LastIndex(s, '}')
      case None => None
      case Some(j) =>
        if i < j then Some((i, j + 1))
        else
          assert !HasBraceSpan(s) by {
            forall a, b | 0 <= a < b < |s| && s[a] == '{' ensures s[b] != '}' {
              assert forall k | 0 <= k < i :: s[k] == s[..i][k];
              assert forall k | j < k < |s| :: s[k] == s[j + 1..][k - j - 1];
            }
          }
          None
  }

  /**
   * `s.match(/{[\s\S]*}/)?.[0] || s`: the matched object span, or the whole
   * text when there is no match. A match is never empty, so the fallback
   * applies only when there is none.
   */
  function IsolateObject(s: string): (r: string)
    ensures !HasBraceSpan(s) ==> r == s
    ensures HasBraceSpan(s) ==> |r| >= 2 && r[0] == '{' && r[|r| - 1] == '}'
    ensures HasBraceSpan(s) ==>
      FirstIndex(s, '{').Some? && LastIndex(s, '}').Some? &&
      FirstIndex(s, '{').value < LastIndex(s, '}').value &&
      r == s[FirstIndex(s, '{').value..LastIndex(s, '}').value + 1]
  {
    match BraceSpan(s)
    case None => s
    case Some((a, b)) =>
      FirstIndexAt(s, '{', a);
      LastIndexAt(s, '}', b - 1);
      s[a..b]
  }

  /** The isolated text is a piece of the original: `s[i..i + |IsolateObject(s)|]` for some `i`. */
  lemma IsolateIsSlice(s: string) returns (i: nat)
    ensures i + |IsolateObject(s)| <= |s| && IsolateObject(s) == s[i..i + |IsolateObject(s)|]
  {
    match BraceSpan(s)
    case None => i := 0;
    case Some((a, b)) => i := a;
  }

  /** A piece of a text without fence markers has none either. */
  lemma NoFenceInSlice(t: string, i: nat, j: nat)
    requires i <= j <= |t| && NoFence(t)
    ensures NoFence(t[i..j])
  {
    forall k | 0 <= k < j - i ensures !FenceAt(t[i..j], k) {
      assert !FenceAt(t, i + k);
    }
  }


  /** Stripping and then trimming leaves no fence marker. */
  lemma TrimmedStripHasNoFence(text: string)
    ensures NoFence(Trim(StripFences(text)))
  {
    var s := StripFences(text);
    StripLeavesNoFence(text);
    var i := TrimIsSlice(s);
    NoFenceInSlice(s, i, i + |Trim(s)|);
  }

  /** Isolating the object span of a text without fence markers leaves none. */
  lemma IsolateKeepsNoFence(t: string)
    requires NoFence(t)
    ensures NoFence(IsolateObject(t))
  {
    var k := IsolateIsSlice(t);
    NoFenceInSlice(t, k, k + |IsolateObject(t)|);
  }

  /**
   * The text handed to the parser: fences stripped, trimmed, object span
   * isolated. It never contains a fence marker.
   */
  function Clean(text: string): (r: string)
    ensures NoFence(r)
  {
    TrimmedStripHasNoFence(text);
    IsolateKeepsNoFence(Trim(StripFences(text)));
    IsolateObject(Trim(StripFences(text)))
  }

  /** A text without backticks is only trimmed before the object span is isolated. */
  lemma PlainTextIsOnlyTrimmed(text: string)
    requires '`' !in text
    ensures Clean(text) == IsolateObject(Trim(text))
  {
    StripKeepsPlainPrefix(text, []);
    assert text + [] == text;
  }

  /** A reply wrapped in a tagged fence block is cleaned as its bare body. */
  lemma FencedReplyIsUnwrapped(body: string)
    requires '`' !in body
    ensures Clean(JsonFence + body + Fence) == IsolateObject(Trim(body))
  {
    StripFencedBlock(body);
  }

  /** The three record families read from the parsed reply. */
  datatype Extracted = Extracted(invoices: Json, products: Json, customers: Json)

  /** No records of any family. */
  const NoRecords: Extracted := Extracted(EmptyArray, EmptyArray, EmptyArray)

  /**
   * `JSON.parse` with its failure caught: the parsed value, or the empty
   * object `{}` when the text does not parse. The parser itself is a
   * parameter: `parse(t)` is None exactly when `JSON.parse(t)` throws.
   */
  function ParseOrEmpty(parse: string -> Option<Json>, text: string): (v: Json)
    ensures parse(text).None? ==> v == JObj(map[])
    ensures parse(text).Some? ==> v == parse(text).value
  {
    match parse(text)
    case None => JObj(map[])
    case Some(v) => v
  }

  /**
   * `parsedData.Invoices || []` and likewise for products and customers, as
   * the service reads them. Reading a property of `null` throws, so a value
   * of `null` fails the request.
   */
  function ReadFamilies(v: Json): (r: Result<Extracted, string>)
    ensures r.Err? <==> v == JNull
  {
    if v == JNull then Err(Property(v, "Invoices").error)
    else Ok(Extracted(
      OrEmptyArray(Property(v, "Invoices").value),
      OrEmptyArray(Property(v, "Products").value),
      OrEmptyArray(Property(v, "Customers").value)))
  }

  /** The normalisation of the model's reply as the service performs it. */
  function NormalizeAsWritten(parse: string -> Option<Json>, text: string): (r: Result<Extracted, string>)
    ensures r.Err? <==> parse(Clean(text)) == Some(JNull)
  {
    ReadFamilies(ParseOrEmpty(parse, Clean(text)))
  }

  /** The family stored under `key` in a parsed reply, or `[]` when it is not a truthy property of an object. */
  function FamilyOf(v: Json, key: string): (r: Json)
    ensures Truthy(r)
    ensures r != EmptyArray ==> v.JObj? && key in v.fields && r == v.fields[key]
    ensures v.JObj? && key in v.fields && Truthy(v.fields[key]) ==> r == v.fields[key]
  {
    if v.JObj? && key in v.fields && Truthy(v.fields[key]) then v.fields[key] else EmptyArray
  }

  /**
   * The normalisation with the failure on `null` removed: it never fails,
   * agrees with the service wherever the service succeeds, and yields no
   * records where the service would fail.
   */
  function Normalize(parse: string -> Option<Json>, text: string): (r: Extracted)
    ensures NormalizeAsWritten(parse, text).Ok? ==> r == NormalizeAsWritten(parse, text).value
    ensures NormalizeAsWritten(parse, text).Err? ==> r == NoRecords
    ensures Truthy(r.invoices) && Truthy(r.products) && Truthy(r.customers)
  {
    var v := ParseOrEmpty(parse, Clean(text));
    Extracted(FamilyOf(v, "Invoices"), FamilyOf(v, "Products"), FamilyOf(v, "Customers"))
  }

  /** A reply that does not parse yields three empty families, and the request still succeeds. */
  lemma UnparseableReplyGivesNoRecords(parse: string -> Option<Json>, text: string)
    requires parse(Clean(text)).None?
    ensures NormalizeAsWritten(parse, text) == Ok(NoRecords)
    ensures Normalize(parse, text) == NoRecords
  {
    var v := ParseOrEmpty(parse, Clean(text));
    assert v == JObj(map[]);
    EmptyObjectHasNoRecords();
  }

  /** The empty object `{}` holds no records, as written and corrected alike. */
  lemma EmptyObjectHasNoRecords()
    ensures ReadFamilies(JObj(map[])) == Ok(NoRecords)
    ensures FamilyOf(JObj(map[]), "Invoices") == EmptyArray
    ensures FamilyOf(JObj(map[]), "Products") == EmptyArray
    ensures FamilyOf(JObj(map[]), "Customers") == EmptyArray
  {
  }

  /** A family whose key the parsed object lacks, or holds a falsy value under, is empty. */
  lemma AbsentFamilyIsEmpty(parse: string -> Option<Json>, text: string, m: map<string, Json>, key: string)
    requires parse(Clean(text)) == Some(JObj(m))
    requires key in {"Invoices", "Products", "Customers"}
    requires key !in m || !Truthy(m[key])
    ensures NormalizeAsWritten(parse, text).Ok?
    ensures var e := NormalizeAsWritten(parse, text).value;
      (key == "Invoices" ==> e.invoices == EmptyArray) &&
      (key == "Products" ==> e.products == EmptyArray) &&
      (key == "Customers" ==> e.customers == EmptyArray)
  {
  }

  /**
   * A reply wrapped in a tagged fence block, whose object holds arrays under
   * the three family keys, yields exactly those arrays.
   */
  lemma FencedReplyPassesThrough(parse: string -> Option<Json>, reply: string, body: string, m: map<string, Json>)
    requires reply == JsonFence + body + Fence && '`' !in body
    requires parse(IsolateObject(Trim(body))) == Some(JObj(m))
    requires "Invoices" in m && "Products" in m && "Customers" in m
    requires m["Invoices"].JArr? && m["Products"].JArr? && m["Customers"].JArr?
    ensures NormalizeAsWritten(parse, reply) == Ok(Extracted(m["Invoices"], m["Products"], m["Customers"]))
  {
    var cleaned := Clean(reply);
    assert cleaned == IsolateObject(Trim(body)) by {
      FencedReplyIsUnwrapped(body);
    }
    assert ParseOrEmpty(parse, cleaned) == JObj(m);
    ArraysAreRead(m);
  }

  /** Families stored as arrays are read as they are. */
  lemma ArraysAreRead(m: map<string, Json>)
    requires "Invoices" in m && "Products" in m && "Customers" in m
    requires m["Invoices"].JArr? && m["Products"].JArr? && m["Customers"].JArr?
    ensures ReadFamilies(JObj(m)) == Ok(Extracted(m["Invoices"], m["Products"], m["Customers"]))
  {
  }

  /** The reply "null" is handed to the parser unchanged. */
  lemma CleanOfNull()
    ensures Clean("null") == "null"
  {
    var t := "null";
    assert '`' !in t && '{' !in t;
    assert !IsWs(t[0]) && !IsWs(t[3]);
    CleanOfBareText(t);
  }

  /** A text without backticks or braces and not bounded by white space reaches the parser unchanged. */
  lemma CleanOfBareText(t: string)
    requires '`' !in t && '{' !in t
    requires t == [] || (!IsWs(t[0]) && !IsWs(t[|t| - 1]))
    ensures Clean(t) == t
  {
    assert Trim(t) == t by {
      TrimCharacterised(t, 0, |t|);
      assert t[0..|t|] == t;
    }
    assert IsolateObject(t) == t by {
      assert !HasBraceSpan(t);
    }
    PlainTextIsOnlyTrimmed(t);
  }

  /** As written, the reply "null" parses to `null` and fails the request instead of yielding no records. */
  lemma NullReplyFailsAsWritten(parse: string -> Option<Json>)
    requires parse("null") == Some(JNull)
    ensures NormalizeAsWritten(parse, "null").Err?
    ensures Normalize(parse, "null") == NoRecords
  {
    CleanOfNull();
  }
}
