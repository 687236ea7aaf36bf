/** The password file of aes.cpp: what encrypt_change_passwd writes and what
encrypt_get_passwd reads back.

Both work in 1024-byte buffers with a fixed 16-byte key.  The password is padded
with '.' to a multiple of sixteen, and only the first block of the buffer goes
through the cipher.
*/
module Passwd {
  import opened Wrappers
  import opened Gf256
  import Aes

  const BUFFER := 1024
  const DOT: byte := 0x2e
  const KEY: seq<byte> :=
    [0x2b, 0x7e, 0x15, 0x16, 0x28, 0xae, 0xd2, 0xa6, 0xab, 0xf7, 0x15, 0x88, 0x09, 0xcf, 0x4f, 0x3c]

  function Fill(b: byte, n: nat): (s: seq<byte>)
    ensures |s| == n && forall i | 0 <= i < n :: s[i] == b
  {
    seq(n, _ => b)
  }

  /** What strlen sees. */
  function StrLen(s: seq<byte>): (n: nat)
    ensures n <= |s| && 0 !in s[..n] && (n < |s| ==> s[n] == 0)
  {
    if s == [] || s[0] == 0 then 0 else 1 + StrLen(s[1..])
  }

  /** The text up to the first '.', or all of it. */
  function BeforeDot(s: seq<byte>): (t: seq<byte>)
    ensures t <= s && DOT !in t && (t != s ==> s[|t|] == DOT)
  {
    if s == [] || s[0] == DOT then [] else [s[0]] + BeforeDot(s[1..])
  }

  function Padded(password: seq<byte>): (s: seq<byte>)
    ensures |s| % 16 == 0 && password <= s && |s| <= |password| + 15
    ensures forall i | |password| <= i < |s| :: s[i] == DOT
  {
    password + Fill(DOT, (16 - |password| % 16) % 16)
  }

  type Key = k: seq<byte> | |k| == 16 witness KEY

  function Schedule(key: Key): (w: seq<byte>)
    ensures |w| == 176
  {
    Aes.ExpandedKey(key, 4, 44)
  }

  /** The file the program writes for a password. */
  function FileOf(key: Key, password: seq<byte>): seq<byte> {
    var s := Padded(password);
    if s == [] then [] else Aes.CipherOf(s[..16], Schedule(key), 10) + s[16..]
  }

  /** The part of a file that one read takes. */
  function Head(file: seq<byte>): (s: seq<byte>)
    ensures |s| <= BUFFER && s <= file
  {
    if |file| <= BUFFER then file else file[..BUFFER]
  }

  /** The decrypted buffer for a file. */
  function DecodedBuffer(key: Key, file: seq<byte>): (buffer: seq<byte>)
    ensures |buffer| == BUFFER
  {
    var s := Head(file) + Fill(0, BUFFER - |Head(file)|);
    Aes.InvCipherOf(s[..16], Schedule(key), 10) + s[16..]
  }

  /** The text search stays within the buffer. */
  predicate Readable(key: Key, file: seq<byte>) {
    file == [] || 0 in DecodedBuffer(key, file) || DOT in DecodedBuffer(key, file)
  }

  /** Every file that does not fill the buffer. */
  lemma ShortFileIsReadable(key: Key, file: seq<byte>)
    requires |file| < BUFFER
    ensures Readable(key, file)
  {
    hide Aes.InvCipherOf, Schedule;
    assert DecodedBuffer(key, file)[BUFFER - 1] == 0;
  }

  /** The password the program reads from a file; an empty file is an error. */
  function PasswordOf(key: Key, file: seq<byte>): Option<seq<byte>> {
    if file == [] then None
    else
      var s := DecodedBuffer(key, file);
      Some(BeforeDot(s[..StrLen(s)]))
  }

  lemma {:induction false} StrLenOf(s: seq<byte>, n: nat)
    requires n < |s| && 0 !in s[..n] && s[n] == 0
    ensures StrLen(s) == n
  {
    if n > 0 {
      StrLenOf(s[1..], n - 1);
    }
  }

  lemma {:induction false} BeforeDotOf(s: seq<byte>, k: nat)
    ensures BeforeDot(s + Fill(DOT, k)) == BeforeDot(s)
  {
    if s == [] {
      assert s + Fill(DOT, k) == Fill(DOT, k);
    } else {
      assert (s + Fill(DOT, k))[1..] == s[1..] + Fill(DOT, k);
      BeforeDotOf(s[1..], k);
    }
  }

  /** The buffer decrypts to the padded password followed by zeros. */
  lemma DecodedFile(key: Key, password: seq<byte>)
    requires password != [] && |password| <= 1008
    ensures |FileOf(key, password)| < BUFFER
    ensures DecodedBuffer(key, FileOf(key, password)) == Padded(password) + Fill(0, BUFFER - |Padded(password)|)
  {
    hide Padded, Aes.CipherOf, Aes.InvCipherOf, Aes.ExpandedKey;
    var s := Padded(password);
    var file := FileOf(key, password);
    var buffer := file + Fill(0, BUFFER - |file|);
    assert buffer[..16] == Aes.CipherOf(s[..16], Schedule(key), 10);
    assert buffer[16..] == s[16..] + Fill(0, BUFFER - |file|);
    Aes.InvCipherUndoesCipher(s[..16], Schedule(key), 10);
  }

  /** Reading back a written password gives the part before its first '.', so
      the password itself comes back exactly when it has no '.'. */
  lemma WrittenPasswordReadBack(key: Key, password: seq<byte>)
    requires password != [] && |password| <= 1008 && 0 !in password
    ensures |FileOf(key, password)| < BUFFER
    ensures PasswordOf(key, FileOf(key, password)) == Some(BeforeDot(password))
    ensures PasswordOf(key, FileOf(key, password)) == Some(password) <==> DOT !in password
  {
    NonEmptyFile(key, password);
    DecodedFile(key, password);
    hide FileOf, DecodedBuffer, Padded, Fill, StrLen, BeforeDot;
    PaddedText(password);
    DotFree(password);
  }

  /** The text read from a padded password and the zeros behind it. */
  lemma PaddedText(password: seq<byte>)
    requires |password| <= 1008 && 0 !in password
    ensures var s := Padded(password);
            var buffer := s + Fill(0, BUFFER - |s|);
            BeforeDot(buffer[..StrLen(buffer)]) == BeforeDot(password)
  {
    var s := Padded(password);
    var buffer := s + Fill(0, BUFFER - |s|);
    BeforeDotOf(password, (16 - |password| % 16) % 16);
    hide BeforeDot, StrLen;
    assert buffer[..|s|] == s;
    StrLenOf(buffer, |s|);
  }

  lemma {:induction false} DotFree(s: seq<byte>)
    ensures BeforeDot(s) == s <==> DOT !in s
  {
  }

  lemma NonEmptyFile(key: Key, password: seq<byte>)
    requires password != []
    ensures FileOf(key, password) != []
  {
    hide Aes.CipherOf, Schedule;
    assert Padded(password) != [];
  }

  /** The empty password is written as an empty file, which cannot be read. */
  lemma EmptyPasswordUnreadable(key: Key)
    ensures FileOf(key, []) == [] && PasswordOf(key, FileOf(key, [])) == None
  {
    hide Aes.CipherOf, Schedule, DecodedBuffer;
    assert Padded([]) == [];
  }

  // ----- the program's steps

  /** Clear the buffer, then copy the password to its front. */
  method CopyPassword(data: array<byte>, password: seq<byte>)
    requires data.Length == BUFFER && |password| <= 1008
    modifies data
    ensures data[..] == password + Fill(0, BUFFER - |password|)
  {
    for k := 0 to data.Length
      invariant forall j | 0 <= j < k :: data[j] == 0
    {
      data[k] := 0;
    }
    for k := 0 to |password|
      invariant forall j | 0 <= j < data.Length :: data[j] == if j < k then password[j] else 0
    {
      data[k] := password[k];
    }
  }

  lemma PaddedStep(s: seq<byte>, n: nat, buffer: seq<byte>)
    requires n < |s| <= 1008 && s[n] == DOT && 0 !in s && buffer == s[..n] + Fill(0, BUFFER - n)
    ensures buffer[n := DOT] == s[..n + 1] + Fill(0, BUFFER - (n + 1))
    ensures StrLen(buffer[n := DOT]) == n + 1
  {
    var next := buffer[n := DOT];
    assert next == s[..n + 1] + Fill(0, BUFFER - (n + 1));
    assert next[..n + 1] == s[..n + 1];
    StrLenOf(next, n + 1);
  }

  lemma PaddedParts(password: seq<byte>)
    requires |password| <= 1008 && 0 !in password
    ensures var s := Padded(password); var n := |password|;
            && s[..n] == password && 0 !in s && |s| <= 1008
            && (forall k | n <= k < |s| :: s[k] == DOT)
            && StrLen(password + Fill(0, BUFFER - n)) == n
  {
    var buffer := password + Fill(0, BUFFER - |password|);
    assert buffer[..|password|] == password;
    StrLenOf(buffer, |password|);
  }

  /** The padding loop: a '.' is appended until strlen is a multiple of 16. */
  method PadPassword(data: array<byte>, password: seq<byte>)
    requires data.Length == BUFFER && |password| <= 1008 && 0 !in password
    modifies data
    ensures data[..] == Padded(password) + Fill(0, BUFFER - |Padded(password)|)
    ensures StrLen(data[..]) == |Padded(password)|
  {
    hide StrLen, Padded, Fill;
    CopyPassword(data, password);
    PaddedParts(password);
    ghost var s := Padded(password);
    ghost var n := |password|;
    while StrLen(data[..]) % 16 != 0
      invariant |password| <= n <= |s| && data[..] == s[..n] + Fill(0, BUFFER - n)
      invariant StrLen(data[..]) == n
      decreases |s| - n
    {
      PaddedStep(s, n, data[..]);
      ghost var buffer := data[..];
      var at := StrLen(data[..]);
      data[at] := DOT;
      assert data[..] == buffer[n := DOT];
      n := n + 1;
    }
    assert n == |s| && s[..n] == s;
  }

  /** AES_ECB_Encrypt: copy, expand the key, encipher one block in place. */
  method EncryptFirstBlock(input: array<byte>, output: array<byte>, length: nat)
    requires input != output && length <= input.Length && length <= output.Length && output.Length >= 16
    modifies output
    ensures output[..] == old(var s := input[..length] + output[length..];
                              Aes.CipherOf(s[..16], Schedule(KEY), 10) + s[16..])
  {
    hide Aes.ExpandedKey, Aes.CipherOf;
    CopyBytes(input, output, length);
    var expKey := new byte[176](_ => 0);
    Aes.KeyExpansion(expKey, KEY, 4);
    Aes.Cipher(output, expKey, 10);
    assert output[..] == output[..16] + output[16..];
  }

  method DecryptFirstBlock(input: array<byte>, output: array<byte>, length: nat)
    requires input != output && length <= input.Length && length <= output.Length && output.Length >= 16
    modifies output
    ensures output[..] == old(var s := input[..length] + output[length..];
                              Aes.InvCipherOf(s[..16], Schedule(KEY), 10) + s[16..])
  {
    hide Aes.ExpandedKey, Aes.InvCipherOf;
    CopyBytes(input, output, length);
    var expKey := new byte[176](_ => 0);
    Aes.KeyExpansion(expKey, KEY, 4);
    Aes.InvCipher(output, expKey, 10);
    assert output[..] == output[..16] + output[16..];
  }

  method CopyBytes(input: array<byte>, output: array<byte>, length: nat)
    requires input != output && length <= input.Length && length <= output.Length
    modifies output
    ensures output[..] == old(input[..length] + output[length..])
  {
    for k := 0 to length
      invariant input[..] == old(input[..])
      invariant forall i | 0 <= i < output.Length :: output[i] == if i < k then input[i] else old(output[i])
    {
      output[k] := input[k];
    }
  }

  method ChangePassword(password: seq<byte>) returns (file: seq<byte>)
    requires |password| <= 1008 && 0 !in password
    ensures file == FileOf(KEY, password)
  {
    hide Schedule, Aes.CipherOf, Padded, StrLen;
    var data := new byte[BUFFER](_ => 0);
    PadPassword(data, password);
    ghost var s := Padded(password);
    var length := StrLen(data[..]);
    var enc := new byte[BUFFER](_ => 0);
    assert data[..length] + enc[length..] == s + Fill(0, BUFFER - |s|);
    EncryptFirstBlock(data, enc, length);
    file := enc[..length];
    assert data[..length] == s;
    if s != [] {
      var buffer := s + Fill(0, BUFFER - |s|);
      assert buffer[..16] == s[..16];
      assert enc[..] == Aes.CipherOf(s[..16], Schedule(KEY), 10) + buffer[16..];
      assert enc[..length] == Aes.CipherOf(s[..16], Schedule(KEY), 10) + s[16..];
    }
  }

  method GetPassword(file: seq<byte>) returns (password: Option<seq<byte>>)
    requires Readable(KEY, file)
    ensures password == PasswordOf(KEY, file)
  {
    hide Schedule, Aes.InvCipherOf, StrLen, BeforeDot;
    if |file| == 0 {
      return None;
    }
    var enc := new byte[BUFFER](i => if 0 <= i < |file| then file[i] else 0);
    var dec := new byte[BUFFER](_ => 0);
    var size := if |file| < BUFFER then |file| else BUFFER;
    ghost var s := enc[..size] + dec[size..];
    assert enc[..size] == Head(file);
    assert s == Head(file) + Fill(0, BUFFER - |Head(file)|);
    DecryptFirstBlock(enc, dec, size);
    assert dec[..] == Aes.InvCipherOf(s[..16], Schedule(KEY), 10) + s[16..];
    assert dec[..] == DecodedBuffer(KEY, file);
    password := Some(BeforeDot(dec[..StrLen(dec[..])]));
  }
}
