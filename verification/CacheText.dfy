/**
 The JSON text of the embedding cache of triage/rank.py (section 7 of RFC 8259 for the strings, section 3
 of RFC 3629 for the bytes): the sizes that pruning counts are the sizes of what is written.
 */
module CacheText {
  import opened Order
  import opened Models
  import opened Prune

  // ---- bytes ----

  /** The bytes of one character in UTF-8. */
  function Utf8(c: char): nat {
    var n := c as int;
    if n <= 0x7F then 1 else if n <= 0x7FF then 2 else if n <= 0xFFFF then 3 else 4
  }

  function Bytes(s: string): nat { if s == "" then 0 else Bytes(s[..|s| - 1]) + Utf8(s[|s| - 1]) }

  lemma {:induction false} BytesAdd(s: string, t: string)
    ensures Bytes(s + t) == Bytes(s) + Bytes(t)
  {
    if t == "" {
      assert s + t == s;
    } else {
      BytesAdd(s, t[..|t| - 1]);
      assert (s + t)[..|s + t| - 1] == s + t[..|t| - 1];
    }
  }

  lemma OneByteEach(s: string)
    requires forall i | 0 <= i < |s| :: s[i] < '\U{0080}'
    ensures Bytes(s) == |s|
  {
    if s != "" { OneByteEach(s[..|s| - 1]); }
  }

  // ---- strings ----

  function Hex(n: nat): char
    requires n < 16
  {
    if n < 10 then '0' + n as char else 'a' + (n - 10) as char
  }

  /** One character inside a JSON string: two characters for the short escapes, six for other control characters. */
  function Escaped(c: char): string {
    if c == '"' then "\\\"" else if c == '\\' then "\\\\"
    else if c == '\n' then "\\n" else if c == '\r' then "\\r" else if c == '\t' then "\\t"
    else if c == '\U{0008}' then "\\b" else if c == '\U{000C}' then "\\f"
    else if c < ' ' then "\\u00" + [Hex(c as int / 16), Hex(c as int % 16)]
    else [c]
  }

  function Inner(s: string): string { if s == "" then "" else Inner(s[..|s| - 1]) + Escaped(s[|s| - 1]) }

  function Quoted(s: string): string { "\"" + Inner(s) + "\"" }

  lemma EscapedSize(c: char)
    ensures Bytes(Escaped(c)) == CharBytes(c)
  {
    var e := Escaped(c);
    if c in {'"', '\\', '\n', '\r', '\t', '\U{0008}', '\U{000C}'} || c < ' ' {
      OneByteEach(e);
    } else {
      assert e[..0] == "";
    }
  }

  /** A key counts as many bytes as its JSON string has. */
  lemma {:induction false} QuotedSize(key: string)
    ensures Bytes(Quoted(key)) == KeyBytes(key)
  {
    hide CharBytes, Escaped, Utf8;
    InnerSize(key);
    BytesAdd("\"", Inner(key));
    BytesAdd("\"" + Inner(key), "\"");
    OneByteEach("\"") by { assert "\""[0] < '\U{0080}'; }
  }

  lemma {:induction false} InnerSize(key: string)
    ensures Bytes(Inner(key)) + 2 == KeyBytes(key)
  {
    hide CharBytes, Escaped, Utf8;
    if key != "" {
      var n := |key| - 1;
      InnerSize(key[..n]);
      BytesAdd(Inner(key[..n]), Escaped(key[n]));
      EscapedSize(key[n]);
    }
  }

  // ---- objects ----

  /** `values` holds the JSON text of each record. */
  ghost predicate TextsOf(m: Bucket, values: map<string, string>) {
    forall k | k in m :: k in values && Bytes(values[k]) == m[k].bytes
  }

  /** The members of an object, with commas only between them. */
  ghost function Members(m: Bucket, values: map<string, string>): string
    requires TextsOf(m, values)
    decreases |m|
  {
    if m == map[] then "" else
      var k := FirstKey(m);
      Quoted(k) + ":" + values[k] + (if |m| > 1 then "," else "") + Members(m - {k}, values)
  }

  lemma {:induction false} MembersSize(m: Bucket, values: map<string, string>)
    requires TextsOf(m, values)
    ensures Bytes(Members(m, values)) == Written(m)
    decreases |m|
  {
    hide Quoted, Bytes, KeyBytes;
    if m == map[] {
      OneByteEach("");
    } else {
      var k := FirstKey(m);
      var comma, rest := if |m| > 1 then "," else "", Members(m - {k}, values);
      assert |m.Keys - {k}| == |m| - 1 && (m - {k}).Keys == m.Keys - {k};
      MembersSize(m - {k}, values);
      QuotedSize(k);
      OneByteEach(":");
      OneByteEach(comma);
      BytesAdd(Quoted(k), ":");
      BytesAdd(Quoted(k) + ":", values[k]);
      BytesAdd(Quoted(k) + ":" + values[k], comma);
      BytesAdd(Quoted(k) + ":" + values[k] + comma, rest);
    }
  }

  /** The file that is written. */
  ghost function FileText(items: Bucket, results: Bucket, values: map<string, string>,
                          values': map<string, string>): string
    requires TextsOf(items, values) && TextsOf(results, values')
  {
    "{\"schema_version\":2,\"items\":{" + Members(items, values) + "},\"results\":{" + Members(results, values') + "}}"
  }

  /** The size that the byte cap bounds is the size of the file. */
  lemma FileSize(items: Bucket, results: Bucket, values: map<string, string>, values': map<string, string>)
    requires TextsOf(items, values) && TextsOf(results, values')
    ensures Bytes(FileText(items, results, values, values')) == CacheBytes(items, results)
  {
    hide Bytes, Members, Written;
    var a, b, c := "{\"schema_version\":2,\"items\":{", "},\"results\":{", "}}";
    MembersSize(items, values);
    MembersSize(results, values');
    OneByteEach(a);
    OneByteEach(b);
    OneByteEach(c);
    BytesAdd(a, Members(items, values));
    BytesAdd(a + Members(items, values), b);
    BytesAdd(a + Members(items, values) + b, Members(results, values'));
    BytesAdd(a + Members(items, values) + b + Members(results, values'), c);
    assert |"{\"schema_version\":2,\"items\":{},\"results\":{}}"| == |a| + |b| + |c|;
  }
}
