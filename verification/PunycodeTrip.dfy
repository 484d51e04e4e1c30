/** The encoder and the decoder, one after the other. */
module PunycodeTrip {
  import opened Words
  import opened PunycodeDigits
  import opened PunycodeSpec
  import opened PunycodeRoundTrip
  import opened PunycodeLimits
  import opened PunycodeEncode
  import opened PunycodeDecode

  /**
   Encodes into `bytes`, and decodes from there into `output` and `flags`. When both succeed, the code points and flags
   are back; and when the encoding has succeeded, the decoding does exactly if there is room and its sums fit 32 bits.
   */
  method ThereAndBack(input: seq<uint32>, caseFlags: CaseFlags, bytes: array<byte>, output: array<uint32>,
                      flags: array<bool>)
    returns (encoded: Status, decoded: Status, length: uint32)
    requires |input| <= MAX_UINT32 && FlagsFor(input, caseFlags)
    requires bytes.Length <= MAX_UINT32 && output.Length <= MAX_UINT32 && flags.Length >= output.Length
    modifies bytes, output, flags
    ensures encoded.Success? <==>
              DeltasFit(input, INITIAL_N, 0, MAX_UINT32) && |Encoding(input, caseFlags)| <= bytes.Length
    ensures encoded.Success? ==>
              (decoded.Success? <==> SumsFit(input, INITIAL_N, 0, MAX_UINT32) && |input| <= output.Length)
    ensures length <= output.Length
    ensures encoded.Success? && decoded.Success? ==>
              output[..length] == CasedAll(input, caseFlags) && flags[..length] == FlagsBack(input, caseFlags)
  {
    hide DeltasFit, SumsFit, Encoding, Decoding, EncodeStatus, CasedAll, FlagsBack;
    length := 0;
    decoded := BadInput;
    var written: uint32;
    encoded, written := Encode(input, caseFlags, bytes);
    EncodeSucceeds(input, caseFlags, bytes.Length, MAX_UINT32);
    if !encoded.Success? { return; }
    WordRoundTrip(input, caseFlags, output.Length);
    decoded, length := Decode(bytes[..written], output, flags);
  }
}
