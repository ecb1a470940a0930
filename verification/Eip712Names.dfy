/** Facts about the type names `ethereum/eip712/types.go` makes up. */
module Eip712Names {
  import opened Eip712Types

  predicate IsAlnum(c: char) {
    IsLower(c) || IsUpper(c) || Decimal.IsDigit(c)
  }

  predicate AllAlnum(s: string) {
    forall i :: 0 <= i < |s| ==> IsAlnum(s[i])
  }

  /** The characters of field paths: letters, digits, underscores and the separating dots. */
  predicate IsPathChar(c: char) {
    IsAlnum(c) || c == '_' || c == '.'
  }

  predicate AllPath(s: string) {
    forall i :: 0 <= i < |s| ==> IsPathChar(s[i])
  }

  /** A field name of letters, digits and underscores, not empty. */
  predicate PlainName(s: string) {
    s != "" && forall i :: 0 <= i < |s| ==> IsAlnum(s[i]) || s[i] == '_'
  }

  predicate StartsWithType(s: string) {
    |s| >= 4 && s[..4] == TYPE_PREFIX
  }

  predicate EndsInDigit(s: string) {
    |s| > 0 && Decimal.IsDigit(s[|s| - 1])
  }

  /** What every generated key looks like. */
  predicate TypeKey(s: string) {
    StartsWithType(s) && EndsInDigit(s)
  }

  /** The prefix of the root object or of one of its descendants. */
  predicate Prefix(p: string) {
    AllPath(p) && (p == ROOT_PREFIX || (|p| >= 2 && p[0] == '_' && p[1] == '.'))
  }

  lemma {:induction false} SplitNone(s: string, sep: char)
    requires sep !in s
    ensures Split(s, sep) == [s]
  {
    if s != "" {
      SplitNone(s[1..], sep);
      assert [s[0]] + s[1..] == s;
    }
  }

  predicate PartsOk(parts: seq<string>, s: string, sep: char) {
    forall i :: 0 <= i < |parts| ==> forall k :: 0 <= k < |parts[i]| ==> parts[i][k] != sep && parts[i][k] in s
  }

  lemma {:induction false} SplitParts(s: string, sep: char)
    ensures PartsOk(Split(s, sep), s, sep)
  {
    if s != "" {
      SplitParts(s[1..], sep);
      var rest, parts := Split(s[1..], sep), Split(s, sep);
      forall i, k | 0 <= i < |parts| && 0 <= k < |parts[i]| ensures parts[i][k] != sep && parts[i][k] in s {
        if s[0] == sep {
          if i > 0 { assert parts[i] == rest[i - 1]; }
        } else if i > 0 {
          assert parts[i] == rest[i];
        } else if k > 0 {
          assert parts[0][k] == rest[0][k - 1];
        }
      }
    }
  }

  lemma {:induction false} TitleAlnum(s: string)
    requires AllAlnum(s)
    ensures AllAlnum(Title(s))
  {
    if s != "" && !IsLower(s[0]) && !IsUpper(s[0]) { TitleAlnum(s[1..]); }
    if s != "" && IsLower(s[0]) { UpperIsUpper(s[0]); }
  }

  lemma UpperIsUpper(c: char)
    requires IsLower(c)
    ensures IsUpper(Upper(c))
  {
  }

  lemma {:induction false} TitleAllAlnum(parts: seq<string>)
    requires forall i :: 0 <= i < |parts| ==> AllAlnum(parts[i])
    ensures AllAlnum(TitleAll(parts))
  {
    if parts != [] {
      TitleAlnum(parts[0]);
      TitleAllAlnum(parts[1..]);
    }
  }

  lemma {:induction false} SanitizePartsAlnum(parts: seq<string>)
    requires forall i :: 0 <= i < |parts| ==>
               forall k :: 0 <= k < |parts[i]| ==> IsAlnum(parts[i][k]) || parts[i][k] == '_'
    ensures AllAlnum(SanitizeParts(parts))
  {
    hide IsAlnum;
    if parts != [] {
      SanitizePartsAlnum(parts[1..]);
      SplitParts(parts[0], '_');
      forall i | 0 <= i < |Split(parts[0], '_')| ensures AllAlnum(Split(parts[0], '_')[i]) {
        PartAlnum(parts[0], i);
      }
      TitleAllAlnum(Split(parts[0], '_'));
      TypeAlnum();
    }
  }

  lemma TypeAlnum()
    ensures AllAlnum(TYPE_PREFIX)
  {
  }

  lemma PartAlnum(part: string, i: nat)
    requires forall k :: 0 <= k < |part| ==> IsAlnum(part[k]) || part[k] == '_'
    requires i < |Split(part, '_')| && PartsOk(Split(part, '_'), part, '_')
    ensures AllAlnum(Split(part, '_')[i])
  {
  }

  /** Sanitized paths consist of letters and digits only. */
  lemma SanitizeAlnum(s: string)
    requires AllPath(s)
    ensures AllAlnum(Sanitize(s))
  {
    hide IsAlnum, Split, SanitizeParts;
    var parts := Split(s, '.');
    SplitParts(s, '.');
    forall i, k | 0 <= i < |parts| && 0 <= k < |parts[i]| ensures IsAlnum(parts[i][k]) || parts[i][k] == '_' {
      assert parts[i][k] in s && parts[i][k] != '.';
    }
    SanitizePartsAlnum(parts);
  }

  /** Sanitizing a generated name again changes nothing. */
  lemma SanitizeClean(s: string)
    requires AllAlnum(s) && StartsWithType(s)
    ensures Sanitize(s) == s
  {
    SplitNone(s, '.');
    SplitNone(s, '_');
    assert s[0] == s[..4][0] == 'T';
    assert Title(s) == s;
    assert TitleAll([s][1..]) == "" && SanitizeParts([s][1..]) == "";
    assert TitleAll([s]) == s;
    assert s != ROOT_PREFIX;
  }

  /** The name of a sub-object starts with `Type`. */
  lemma SanitizePrefix(p: string)
    requires |p| >= 2 && p[0] == '_' && p[1] == '.'
    ensures StartsWithType(Sanitize(p))
  {
    hide Title;
    var r := p[2..];
    assert p[1..][1..] == r;
    assert Split(p[1..], '.') == [""] + Split(r, '.');
    assert Split(p, '.') == ["_" + ""] + Split(r, '.');
    assert "_" + "" == ROOT_PREFIX;
    assert (["_"] + Split(r, '.'))[1..] == Split(r, '.');
    assert Sanitize(p) == TYPE_PREFIX + SanitizeParts(Split(r, '.'));
  }

  /** Every generated key starts with `Type` and ends in a digit; below the root it also has only
      letters and digits, so that a reference to it is its own name. */
  lemma GeneratedKey(prefix: string, rootType: string, n: nat)
    requires Prefix(prefix) && StartsWithType(rootType)
    ensures var key := Indexed(TypeDefForPrefix(prefix, rootType), n);
            TypeKey(key) && (prefix != ROOT_PREFIX ==> Sanitize(key) == key)
  {
    hide Sanitize, IsAlnum, Decimal.Render;
    var def, key := TypeDefForPrefix(prefix, rootType), Indexed(TypeDefForPrefix(prefix, rootType), n);
    if prefix != ROOT_PREFIX {
      SanitizePrefix(prefix);
      SanitizeAlnum(prefix);
      DigitsAlnum(n);
      assert key[..4] == def[..4];
      SanitizeClean(key);
    }
    assert key[..4] == def[..4];
    assert key[|key| - 1] == Decimal.Render(n)[|Decimal.Render(n)| - 1];
  }

  lemma DigitsAlnum(n: nat)
    ensures AllAlnum(Decimal.Render(n))
  {
  }

  lemma SubPrefixIsPrefix(prefix: string, name: string)
    requires Prefix(prefix) && PlainName(name)
    ensures Prefix(SubPrefix(prefix, name)) && SubPrefix(prefix, name) != ROOT_PREFIX
  {
  }
}
