/** What the decoders and their callers hand to each other: linux/xz.h. */
module XzApi {
  import opened Words

  // enum xz_ret
  datatype XzRet =
    XzOk | XzStreamEnd | XzMemlimitError | XzFormatError | XzOptionsError | XzDataError | XzBufError

  /** struct xz_buf */
  class XzBuf {
    const input: array<byte>
    var inPos: nat
    const inSize: nat
    const output: array<byte>
    var outPos: nat
    const outSize: nat

    constructor (input: array<byte>, inPos: nat, inSize: nat, output: array<byte>, outPos: nat, outSize: nat)
      requires inPos <= inSize <= input.Length && outPos <= outSize <= output.Length
      requires input != output
      ensures Valid()
      ensures this.input == input && this.inPos == inPos && this.inSize == inSize
      ensures this.output == output && this.outPos == outPos && this.outSize == outSize
    {
      this.input, this.inPos, this.inSize := input, inPos, inSize;
      this.output, this.outPos, this.outSize := output, outPos, outSize;
    }

    ghost predicate Valid()
      reads this
    {
      inPos <= inSize <= input.Length && outPos <= outSize <= output.Length && input != output
    }

    // one of the two reasons to return XZ_OK
    predicate UsedUp()
      reads this
    {
      inPos == inSize || outPos == outSize
    }
  }
}
