/** MAC addresses as text: the two canonical forms the hub compares them by. */
module Mac {
  import opened Common

  predicate IsSpace(c: char) {
    c in " \t\r\n" || c == '\U{000B}' || c == '\U{000C}'
  }

  function Upper(s: string): (r: string)
    ensures |r| == |s|
  {
    seq(|s|, i requires 0 <= i < |s| => if 'a' <= s[i] <= 'z' then (s[i] as int - 32) as char else s[i])
  }

  /** str.strip: surrounding whitespace dropped. */
  function Trim(s: string): (r: string)
    ensures |r| <= |s|
    decreases |s|
  {
    if s == "" then ""
    else if IsSpace(s[0]) then Trim(s[1..])
    else if IsSpace(s[|s| - 1]) then Trim(s[..|s| - 1])
    else s
  }

  /** The form device rows are compared by at registration: trimmed and upper-cased. */
  function TrimUpper(mac: Option<string>): string {
    if mac.None? then "" else Upper(Trim(mac.value))
  }

  const SEPARATORS: string := ":-. \t\r\n"

  /** s with every character of cs removed. */
  function Without(s: string, cs: string): string {
    if s == "" then ""
    else if s[0] in cs then Without(s[1..], cs)
    else [s[0]] + Without(s[1..], cs)
  }

  lemma {:induction false} WithoutKeepsTheRest(s: string, cs: string)
    ensures forall c :: c in Without(s, cs) <==> c in s && c !in cs
  {
    if s != "" {
      WithoutKeepsTheRest(s[1..], cs);
      assert s == [s[0]] + s[1..];
    }
  }

  /** The form announcements are stored and looked up by: also without separators. */
  function Normalized(mac: Option<string>): string {
    Without(TrimUpper(mac), SEPARATORS)
  }

  lemma {:induction false} WithoutOneMore(s: string, cs: string, c: char)
    ensures Without(Without(s, cs), [c]) == Without(s, cs + [c])
  {
    if s != "" {
      WithoutOneMore(s[1..], cs, c);
      if s[0] !in cs {
        var rest := Without(s[1..], cs);
        assert ([s[0]] + rest)[1..] == rest;
      }
    }
  }

  lemma {:induction false} WithoutNothing(s: string)
    ensures Without(s, "") == s
  {
    if s != "" {
      WithoutNothing(s[1..]);
    }
  }

  lemma {:induction false} WithoutAbsent(s: string, cs: string)
    requires forall c | c in s :: c !in cs
    ensures Without(s, cs) == s
  {
    if s != "" {
      assert s[0] in s;
      WithoutAbsent(s[1..], cs);
    }
  }

  lemma {:induction false} TrimIsSlice(s: string)
    ensures forall c | c in Trim(s) :: c in s
    ensures Trim(s) != "" ==> !IsSpace(Trim(s)[0]) && !IsSpace(Trim(s)[|Trim(s)| - 1])
    decreases |s|
  {
    if s != "" {
      if IsSpace(s[0]) {
        TrimIsSlice(s[1..]);
      } else if IsSpace(s[|s| - 1]) {
        TrimIsSlice(s[..|s| - 1]);
      }
    }
  }

  /** Trimming and upper-casing introduce none of the separators. */
  lemma KeepsOut(mac: string, cs: string)
    requires forall c | c in mac :: c !in cs
    requires forall c | c in cs :: !('A' <= c <= 'Z')
    ensures forall c | c in TrimUpper(Some(mac)) :: c !in cs
  {
    TrimIsSlice(mac);
    var t := Trim(mac);
    forall c | c in Upper(t) ensures c !in cs {
      var i :| 0 <= i < |t| && Upper(t)[i] == c;
      assert t[i] in mac;
    }
  }

  lemma TrimUpperTwice(mac: Option<string>)
    ensures TrimUpper(Some(TrimUpper(mac))) == TrimUpper(mac)
  {
    if mac.Some? {
      TrimIsSlice(mac.value);
      var t := Upper(Trim(mac.value));
      assert t != "" ==> !IsSpace(t[0]) && !IsSpace(t[|t| - 1]);
      assert Trim(t) == t;
      assert Upper(t) == t;
    }
  }

  /** _normalize_mac: strip, upper-case, then replace away one separator after another. */
  method NormalizeMac(mac: Option<string>) returns (out: string)
    ensures out == Normalized(mac)
    ensures forall c :: c in out ==> c !in SEPARATORS
  {
    if mac.None? || mac.value == "" {
      return "";
    }
    out := Upper(Trim(mac.value));
    WithoutNothing(out);
    for i := 0 to |SEPARATORS|
      invariant out == Without(Upper(Trim(mac.value)), SEPARATORS[..i])
    {
      WithoutOneMore(Upper(Trim(mac.value)), SEPARATORS[..i], SEPARATORS[i]);
      assert SEPARATORS[..i] + [SEPARATORS[i]] == SEPARATORS[..i + 1];
      out := Without(out, [SEPARATORS[i]]);
    }
    assert SEPARATORS[..|SEPARATORS|] == SEPARATORS;
    WithoutKeepsTheRest(Upper(Trim(mac.value)), SEPARATORS);
  }
}
