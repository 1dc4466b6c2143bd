/** The exceptions the browsing core can raise, as values. */
module Errors {
  datatype Failure =
    | PathMissing     // the OSError the path setter raises for a path that does not exist
    | NotADirectory   // NotADirectoryError from os.listdir on a file
    | IndexError      // a list index out of range
    | ValueError      // int() on a string that is not an integer

  datatype Result<T> = Ok(value: T) | Err(error: Failure)

  datatype Outcome = Pass | Fail(error: Failure)
}

/** The callback strings `menu()` attaches to buttons and the way `worker`
    reads them back: by substring tests in the fixed order `select//`,
    `up//`, `down//`, `cd//`, with the argument taken as the text after the
    last `//` piece. */
module Callbacks {
  import opened PyStrings
  import opened Errors

  /** What a callback asks `worker` to do. */
  datatype Action =
    | Select(index: int)
    | Up(count: int)
    | Down(count: int)
    | CdParent
    | Cd(index: int)
    | Ignore          // a key that matches none of the four patterns

  /** Lines 201-233 of `worker` up to the point where the key is understood:
      the first pattern the key contains decides the action, and `int(value)`
      raises ValueError when the argument is not an integer. */
  function Decode(key: string): (r: Result<Action>)
    ensures r.Err? ==> r.error == ValueError
    ensures r == Ok(Ignore) <==> !Contains(key, "select//") && !Contains(key, "up//")
                                 && !Contains(key, "down//") && !Contains(key, "cd//")
  {
    var value := LastPiece(key, "//");
    if Contains(key, "select//") then
      match ParseInt(value)
      case None => Err(ValueError)
      case Some(i) => Ok(Select(i))
    else if Contains(key, "up//") then
      match ParseInt(value)
      case None => Err(ValueError)
      case Some(n) => Ok(Up(n))
    else if Contains(key, "down//") then
      match ParseInt(value)
      case None => Err(ValueError)
      case Some(n) => Ok(Down(n))
    else if Contains(key, "cd//") then
      if value == ".." then Ok(CdParent)
      else
        match ParseInt(value)
        case None => Err(ValueError)
        case Some(i) => Ok(Cd(i))
    else Ok(Ignore)
  }

  // The callbacks menu() emits.
  const ParentKey := "cd//.."
  const UploadKey := "upload//"

  function SelectKey(k: nat): string { "select//" + NatToString(k) }
  function CdKey(k: nat): string { "cd//" + NatToString(k) }
  function UpKey(n: nat): string { "up//" + NatToString(n) }
  function DownKey(n: nat): string { "down//" + NatToString(n) }

  /** Every character of a contained string occurs in the container. */
  lemma ContainedChars(s: string, t: string)
    ensures Contains(s, t) ==> forall i :: 0 <= i < |t| ==> t[i] in s
  {
    var k := Find(s, t);
    if k >= 0 {
      forall i | 0 <= i < |t| ensures t[i] in s {
        assert s[k..k + |t|][i] == s[k + i];
      }
    }
  }

  /** A string lacking one of the characters of `t` does not contain `t`. */
  lemma MissingChar(s: string, t: string, c: char)
    requires c in t && c !in s
    ensures !Contains(s, t)
  {
    ContainedChars(s, t);
  }

  lemma PrefixContained(t: string, u: string)
    ensures Contains(t + u, t)
  {
    assert (t + u)[0..|t|] == t;
    assert MatchAt(t + u, t, 0);
  }

  /** The argument of `w + "//" + d` is `d` when neither part holds a '/'. */
  lemma ValueOf(w: string, d: string)
    requires '/' !in w && '/' !in d
    ensures LastPiece(w + "//" + d, "//") == d
  {
    var key := w + "//" + d;
    var last := LastPiece(key, "//");
    LastPieceIsSuffix(key, "//");
    assert MatchAt(key, "//", |w|) by {
      assert key[|w|..|w| + 2] == "//";
    }
    FindFirst(key, "//");
    var m := |key| - |last| - 2;
    assert key[m..m + 2] == "//";
    assert key[m] == '/' && key[m + 1] == '/';
    assert m == |w|;
    assert key[|w| + 2..] == d;
  }

  lemma NoSlashInNumber(n: nat)
    ensures '/' !in NatToString(n) && '.' !in NatToString(n) && NatToString(n) != ".."
    ensures forall c :: c in NatToString(n) ==> IsDigit(c)
  {
    var s := NatToString(n);
    forall c | c in s ensures IsDigit(c) {
      var i :| 0 <= i < |s| && s[i] == c;
    }
  }

  /** `select//k` is read back as "toggle entry k". */
  lemma DecodeSelectKey(k: nat)
    ensures Decode(SelectKey(k)) == Ok(Select(k))
  {
    NoSlashInNumber(k);
    PrefixContained("select//", NatToString(k));
    assert "select//" + NatToString(k) == "select" + "//" + NatToString(k);
    ValueOf("select", NatToString(k));
    ParseNatToString(k);
  }

  /** `cd//k` is read back as "enter entry k": it holds no `s`, `u` or `o`,
      so none of the earlier patterns matches it. */
  lemma DecodeCdKey(k: nat)
    ensures Decode(CdKey(k)) == Ok(Cd(k))
  {
    var digits := NatToString(k);
    var key := "cd//" + digits;
    NoSlashInNumber(k);
    assert key == "cd" + "//" + digits;
    MissingChar(key, "select//", 's');
    MissingChar(key, "up//", 'u');
    MissingChar(key, "down//", 'o');
    PrefixContained("cd//", digits);
    ValueOf("cd", digits);
    ParseNatToString(k);
  }

  /** `cd//..` is read back as "go to the parent". */
  lemma DecodeParentKey()
    ensures Decode(ParentKey) == Ok(CdParent)
  {
    var key := ParentKey;
    MissingChar(key, "select//", 's');
    MissingChar(key, "up//", 'u');
    MissingChar(key, "down//", 'o');
    PrefixContained("cd//", "..");
    assert key == "cd" + "//" + "..";
    ValueOf("cd", "..");
  }

  /** The only `//` of `upload//` follows "upload", so `up//` does not
      occur in it. */
  lemma UploadLacksUp()
    ensures !Contains(UploadKey, "up//")
  {
    forall j: nat | j + 4 <= |UploadKey| ensures !MatchAt(UploadKey, "up//", j) {
      var w := UploadKey[j..j + 4];
      assert w[0] == UploadKey[j] && w[2] == UploadKey[j + 2];
    }
  }

  /** `upload//` matches none of the four patterns. */
  lemma DecodeUploadKey()
    ensures Decode(UploadKey) == Ok(Ignore)
  {
    MissingChar(UploadKey, "select//", 's');
    MissingChar(UploadKey, "down//", 'n');
    MissingChar(UploadKey, "cd//", 'c');
    UploadLacksUp();
  }

  /** `up//n` and `down//n` are read back as scrolling by `n`. */
  lemma DecodeScrollKeys(n: nat)
    ensures Decode(UpKey(n)) == Ok(Up(n))
    ensures Decode(DownKey(n)) == Ok(Down(n))
  {
    var digits := NatToString(n);
    NoSlashInNumber(n);
    var up, down := "up//" + digits, "down//" + digits;
    MissingChar(up, "select//", 's');
    MissingChar(down, "select//", 's');
    MissingChar(down, "up//", 'u');
    PrefixContained("up//", digits);
    PrefixContained("down//", digits);
    assert up == "up" + "//" + digits;
    assert down == "down" + "//" + digits;
    ValueOf("up", digits);
    ValueOf("down", digits);
    ParseNatToString(n);
  }
}
