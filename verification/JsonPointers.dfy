/**
 JSON pointers (section 3 of RFC 6901): how a path of member names is written
 as one string, and why the writing loses nothing.
 */
module JsonPointers {
  import opened Strings

  /** The escaping of the diff: tilde first, then slash. */
  function Escape(key: string): string {
    Replace(Replace(key, '~', "~0"), '/', "~1")
  }

  /** The pointer of a member path. */
  function Encode(path: seq<string>): string {
    if path == [] then "" else "/" + Escape(path[0]) + Encode(path[1..])
  }

  // ---------- reading a pointer back ----------

  function Unescape(token: string): string {
    if |token| >= 2 && token[0] == '~' && token[1] == '1' then "/" + Unescape(token[2..])
    else if |token| >= 2 && token[0] == '~' && token[1] == '0' then "~" + Unescape(token[2..])
    else if token == "" then ""
    else [token[0]] + Unescape(token[1..])
  }

  /** The text up to the next slash, and what follows it from the slash on. */
  function Token(s: string): (r: (string, string))
    ensures |r.1| <= |s|
  {
    if s == "" || s[0] == '/' then ("", s)
    else var rest := Token(s[1..]); ([s[0]] + rest.0, rest.1)
  }

  /** The member names a pointer goes through; a pointer starts with a slash unless it is the root. */
  function Decode(pointer: string): seq<string>
    decreases |pointer|
  {
    if pointer == "" then []
    else
      var rest := Token(pointer[1..]);
      [Unescape(rest.0)] + Decode(rest.1)
  }

  // ---------- nothing is lost ----------

  /** Character by character: a tilde is written ~0, a slash ~1, anything else as it is. */
  lemma EscapeHead(x: char, key: string)
    ensures Escape([x] + key) == (if x == '~' then "~0" else if x == '/' then "~1" else [x]) + Escape(key)
  {
    var rest := Replace(key, '~', "~0");
    ReplaceHead(x, key, '~', "~0");
    if x == '~' {
      assert "~0" + rest == ['~'] + (['0'] + rest);
      ReplaceHead('0', rest, '/', "~1");
      ReplaceHead('~', ['0'] + rest, '/', "~1");
    } else {
      ReplaceHead(x, rest, '/', "~1");
    }
  }

  lemma {:induction false} UnescapeEscape(key: string)
    ensures Unescape(Escape(key)) == key
    ensures '/' !in Escape(key)
  {
    if key != "" {
      var x, rest := key[0], Escape(key[1..]);
      assert key == [x] + key[1..];
      EscapeHead(x, key[1..]);
      UnescapeEscape(key[1..]);
      if x == '~' {
        assert ("~0" + rest)[2..] == rest;
      } else if x == '/' {
        assert ("~1" + rest)[2..] == rest;
      } else {
        assert ([x] + rest)[1..] == rest;
      }
    }
  }

  lemma {:induction false} TokenStops(text: string, rest: string)
    requires '/' !in text
    requires rest == "" || rest[0] == '/'
    ensures Token(text + rest) == (text, rest)
  {
    if text == "" {
      assert text + rest == rest;
    } else {
      assert (text + rest)[1..] == text[1..] + rest;
      assert text == [text[0]] + text[1..];
      TokenStops(text[1..], rest);
    }
  }

  /** Section 3 of RFC 6901: reading a written pointer gives the path back. */
  lemma {:induction false} DecodeEncode(path: seq<string>)
    ensures Decode(Encode(path)) == path
  {
    if path != [] {
      var head, rest := Escape(path[0]), Encode(path[1..]);
      assert ("/" + head + rest)[1..] == head + rest;
      UnescapeEscape(path[0]);
      TokenStops(head, rest);
      DecodeEncode(path[1..]);
    }
  }

  /** Escaped pointers identify distinct paths. */
  lemma {:induction false} EncodeInjective(a: seq<string>, b: seq<string>)
    requires Encode(a) == Encode(b)
    ensures a == b
  {
    DecodeEncode(a);
    DecodeEncode(b);
  }

  lemma {:induction false} EncodeAppend(path: seq<string>, key: string)
    ensures Encode(path + [key]) == Encode(path) + "/" + Escape(key)
  {
    if path == [] {
      assert path + [key] == [key] && [key][1..] == [];
      assert Encode([key]) == "/" + Escape(key) + Encode([key][1..]);
      assert "" + "/" + Escape(key) == "/" + Escape(key);
    } else {
      assert (path + [key])[1..] == path[1..] + [key];
      EncodeAppend(path[1..], key);
    }
  }
}
