/**
  The Hollow Knight save container: `decode_hollow_knight_save` and
  `encode_hollow_knight_save` with the file read taken out, as a pipeline
  over byte strings.

    container = Header ++ base64(AES-ECB(pkcs7(utf8(json)))) ++ [0x0B]

  The block cipher and the JSON text form are parameters (see `Ecb` and
  `Json`); every other stage is modelled exactly.
 */
module SaveCodec {
  import opened Bytes
  import opened Results
  import Base64
  import Pkcs7
  import Ecb
  import opened Json

  /** `C_SHARP_HEADER`: the 22 bytes of hex `0001000000FFFFFFFF01000000000000000601000000`. */
  const Header: seq<byte> := [0, 1, 0, 0, 0, 255, 255, 255, 255, 1, 0, 0, 0, 0, 0, 0, 0, 6, 1, 0, 0, 0]

  /** `END_HEADER_BYTE`. */
  const Footer: byte := 11

  /** `AES_KEY`, the ASCII bytes of `UKu52ePUBwetZ9wNX88o54dnfKRu0T1l`. */
  const AesKey: seq<byte> := [
    85, 75, 117, 53, 50, 101, 80, 85, 66, 119, 101, 116, 90, 57, 119, 78,
    88, 56, 56, 111, 53, 52, 100, 110, 102, 75, 82, 117, 48, 84, 49, 108]

  /** Each `ValueError` the decoder raises, by the stage that raised it. */
  datatype SaveError =
    | BadHeader                          // the input does not start with the header
    | BadFooter                          // what follows the header does not end in the footer byte
    | BadArmor(armor: Base64.ArmorError) // base-64 decoding raised
    | BadCipher(cipher: Ecb.CipherError) // decryption raised
    | BadPadding(pad: Pkcs7.PadError)    // unpadding raised
    | BadJson                            // UTF-8 decoding or JSON parsing raised

  // ---------------------------------------------------------------- framing

  /** Check the header and the footer and return what lies strictly between them. */
  function Unframe(raw: seq<byte>): (r: Result<seq<byte>, SaveError>)
    ensures !StartsWith(raw, Header) ==> r == Failure(BadHeader)
    ensures StartsWith(raw, Header) && !(|raw| > |Header| && raw[|raw| - 1] == Footer) ==> r == Failure(BadFooter)
    ensures r.Success? ==> |raw| >= |Header| + 1 && raw == Header + r.value + [Footer]
  {
    if !StartsWith(raw, Header) then Failure(BadHeader)
    else
      var rest := raw[|Header|..];
      if !EndsWithByte(rest, Footer) then Failure(BadFooter)
      else
        var body := rest[..|rest| - 1];
        assert raw == Header + body + [Footer] by {
          assert raw == raw[..|Header|] + rest;
          assert rest == body + [Footer];
        }
        Success(body)
  }

  /** The framing step of encoding. */
  function Frame(body: seq<byte>): (r: seq<byte>)
    ensures |r| == |Header| + |body| + 1
  {
    Header + body + [Footer]
  }

  /** Stripping the framing as decoding does recovers the framed body exactly. */
  lemma UnframeFrame(body: seq<byte>)
    ensures Unframe(Frame(body)) == Success(body)
  {
    var raw := Frame(body);
    assert raw[..|Header|] == Header;
    assert raw[|Header|..] == body + [Footer];
    assert (body + [Footer])[..|body|] == body;
  }

  // ---------------------------------------------------------------- byte pipeline

  /** Decoding up to the unpadded plaintext bytes (everything before the UTF-8/JSON step). */
  function DecodePlain(c: Ecb.BlockCipher, raw: seq<byte>): (r: Result<seq<byte>, SaveError>)
    ensures !StartsWith(raw, Header) ==> r == Failure(BadHeader)
    ensures StartsWith(raw, Header) && !(|raw| > |Header| && raw[|raw| - 1] == Footer) ==> r == Failure(BadFooter)
    ensures r.Success? ==> |raw| >= |Header| + 1
  {
    var armored :- Unframe(raw);
    var ciphertext :- Base64.Decode(armored).MapFailure(e => BadArmor(e));
    var padded :- Ecb.Decrypt(c, AesKey, ciphertext).MapFailure(e => BadCipher(e));
    var plain :- Pkcs7.Unpad(padded).MapFailure(e => BadPadding(e));
    Success(plain)
  }

  /**
    Encoding from the plaintext bytes on: pad, encrypt, armor, frame. The
    source wraps padding and encryption in handlers for `ValueError`; neither
    can raise, because padded data is always whole blocks, so encoding is total.
   */
  function EncodePlain(c: Ecb.BlockCipher, plain: seq<byte>): (r: seq<byte>)
    ensures StartsWith(r, Header) && r[|r| - 1] == Footer
    ensures |r| == |Header| + 4 * ((|Pkcs7.Pad(plain)| + 2) / 3) + 1
  {
    var padded := Pkcs7.Pad(plain);
    var encrypted := Ecb.Encrypt(c, AesKey, padded).value;
    var r := Frame(Base64.Encode(encrypted));
    assert r[..|Header|] == Header;
    r
  }

  /**
    For any plaintext bytes, decoding what encoding produced reaches the
    UTF-8/JSON step holding exactly those bytes.
   */
  lemma PlainRoundTrip(c: Ecb.BlockCipher, plain: seq<byte>)
    requires Ecb.Inverts(c)
    ensures DecodePlain(c, EncodePlain(c, plain)) == Success(plain)
  {
    var padded := Pkcs7.Pad(plain);
    Ecb.DecryptEncrypt(c, AesKey, padded);
    var encrypted := Ecb.Encrypt(c, AesKey, padded).value;
    var armored := Base64.Encode(encrypted);
    assert EncodePlain(c, plain) == Frame(armored);
    UnframeFrame(armored);
    Base64.DecodeEncode(encrypted);
    Pkcs7.UnpadPad(plain);
  }

  /**
    The inner ciphertext of every encoded container is a positive multiple of
    16 bytes, so the container is at least one armored block long.
   */
  lemma EncodedShape(c: Ecb.BlockCipher, plain: seq<byte>)
    ensures var ct := Ecb.Encrypt(c, AesKey, Pkcs7.Pad(plain));
            ct.Success? && |ct.value| > 0 && |ct.value| % 16 == 0
            && EncodePlain(c, plain) == Frame(Base64.Encode(ct.value))
    ensures |EncodePlain(c, plain)| >= |Header| + 24 + 1
  {
    var ct := Ecb.Encrypt(c, AesKey, Pkcs7.Pad(plain)).value;
    assert |ct| >= 16;
    assert (|ct| + 2) / 3 >= 6;
  }

  /** Armor made only of alphabet characters, of a length that is not a multiple of 4, fails at the armor stage. */
  lemma UnalignedArmorRejected(c: Ecb.BlockCipher, body: seq<byte>)
    requires Base64.AllData(body) && |body| % 4 != 0
    ensures DecodePlain(c, Frame(body)).Failure?
    ensures DecodePlain(c, Frame(body)).error.BadArmor?
  {
    UnframeFrame(body);
    Base64.DataOnlyOutcome(body);
  }

  /** Armor that decodes to a length that is not whole blocks fails at the decryption stage. */
  lemma UnalignedCiphertextRejected(c: Ecb.BlockCipher, body: seq<byte>)
    requires Base64.Decode(body).Success? && |Base64.Decode(body).value| % 16 != 0
    ensures DecodePlain(c, Frame(body)) == Failure(BadCipher(Ecb.NotBlockAligned))
  {
    UnframeFrame(body);
  }

  /**
    Armor that decodes to no bytes at all, the empty armor included, is not
    rejected by decryption (zero blocks are whole blocks) but by unpadding.
   */
  lemma EmptyCiphertextRejected(c: Ecb.BlockCipher, body: seq<byte>)
    requires Base64.Decode(body) == Success([])
    ensures DecodePlain(c, Frame(body)) == Failure(BadPadding(Pkcs7.EmptyInput))
  {
    UnframeFrame(body);
  }

  /**
    Armor that decodes to whole blocks whose decryption is not validly padded
    fails at the unpadding stage, with the error `unpad` raised.
   */
  lemma UnpaddableRejected(c: Ecb.BlockCipher, body: seq<byte>)
    requires Base64.Decode(body).Success? && |Base64.Decode(body).value| % 16 == 0
    requires Pkcs7.Unpad(Ecb.Decrypt(c, AesKey, Base64.Decode(body).value).value).Failure?
    ensures DecodePlain(c, Frame(body)) ==
      Failure(BadPadding(Pkcs7.Unpad(Ecb.Decrypt(c, AesKey, Base64.Decode(body).value).value).error))
  {
    UnframeFrame(body);
  }

  // ---------------------------------------------------------------- records

  /** `decode_hollow_knight_save` after the file has been read into `raw`. */
  function DecodeSave(c: Ecb.BlockCipher, t: JsonText, raw: seq<byte>): (r: Result<Json, SaveError>)
    ensures !StartsWith(raw, Header) ==> r == Failure(BadHeader)
    ensures StartsWith(raw, Header) && !(|raw| > |Header| && raw[|raw| - 1] == Footer) ==> r == Failure(BadFooter)
    ensures r.Success? ==> DecodePlain(c, raw).Success? && t.loads(DecodePlain(c, raw).value) == Some(r.value)
    ensures DecodePlain(c, raw).Failure? ==> r == Failure(DecodePlain(c, raw).error)
    ensures DecodePlain(c, raw).Success? ==>
      (r.Success? <==> t.loads(DecodePlain(c, raw).value).Some?)
      && (t.loads(DecodePlain(c, raw).value).None? ==> r == Failure(BadJson))
  {
    var plain :- DecodePlain(c, raw);
    match t.loads(plain)
    case None => Failure(BadJson)
    case Some(v) => Success(v)
  }

  /** `encode_hollow_knight_save`. */
  function EncodeSave(c: Ecb.BlockCipher, t: JsonText, record: Json): (r: seq<byte>)
    ensures StartsWith(r, Header) && r[|r| - 1] == Footer
  {
    EncodePlain(c, t.dumps(record))
  }

  /** With an inverting cipher and a faithful JSON text form, decoding an encoded record gives it back. */
  lemma SaveRoundTrip(c: Ecb.BlockCipher, t: JsonText, record: Json)
    requires Ecb.Inverts(c) && Faithful(t)
    ensures DecodeSave(c, t, EncodeSave(c, t, record)) == Success(record)
  {
    PlainRoundTrip(c, t.dumps(record));
  }

  /** Re-encoding a decoded container reproduces it byte for byte. */
  lemma ReencodeStable(c: Ecb.BlockCipher, t: JsonText, record: Json)
    requires Ecb.Inverts(c) && Faithful(t)
    ensures var raw := EncodeSave(c, t, record);
            DecodeSave(c, t, raw).Success? && EncodeSave(c, t, DecodeSave(c, t, raw).value) == raw
  {
    SaveRoundTrip(c, t, record);
  }
}
