/** Error codes and the NoiseBuffer view shared by the Noise modules. */
module NoiseBase {
  import opened Bytes

  const NOISE_MAX_PAYLOAD_LEN: nat := 65535
  const NOISE_PSK_LEN: nat := 32
  const NONCE_RESERVED: nat := TWO64 - 1

  datatype Error =
    | NoError
    | InvalidParam
    | InvalidLength
    | InvalidState
    | InvalidNonce
    | InvalidPrivateKey
    | InvalidPublicKey
    | MacFailure
    | PskRequired
    | LocalKeyRequired
    | RemoteKeyRequired

  datatype Result<+T> = Ok(value: T) | Err(error: Error)

  /** A window into an array: the bytes data[at..at+size], which may grow up to maxSize. */
  class NoiseBuffer {
    var data: array<byte>
    var at: nat
    var size: nat
    var maxSize: nat

    ghost predicate Valid()
      reads this
    {
      size <= maxSize && at + maxSize <= data.Length
    }

    ghost function Contents(): bytes
      reads this, data
      requires Valid()
    {
      data[at..at + size]
    }

    constructor (data: array<byte>, at: nat, size: nat, maxSize: nat)
      requires size <= maxSize && at + maxSize <= data.Length
      ensures Valid() && this.data == data && this.at == at && this.size == size && this.maxSize == maxSize
    {
      this.data, this.at, this.size, this.maxSize := data, at, size, maxSize;
    }

    /** Moves the start of the window past n bytes. */
    method Skip(n: nat)
      requires Valid() && n <= size
      modifies this
      ensures Valid() && data == old(data) && Contents() == old(Contents())[n..]
    {
      at, size, maxSize := at + n, size - n, maxSize - n;
    }

    /** Takes in what was produced in the window just after this one. */
    method Adopt(rest: NoiseBuffer, ghost contents: bytes)
      requires Valid() && rest.Valid() && rest != this
      requires rest.data == data && rest.at == at + size && rest.size <= maxSize - size
      requires data[..rest.at][at..] == contents
      modifies this`size
      ensures Valid() && Contents() == contents + rest.Contents()
    {
      size := size + rest.size;
      assert data[at..at + size] == data[..rest.at][at..] + data[rest.at..rest.at + rest.size];
    }

    /** Overwrites the contents, which must fit. */
    method Replace(contents: bytes)
      requires Valid() && |contents| <= maxSize
      modifies this`size, data
      ensures Valid() && Contents() == contents
      ensures data[..] == old(data[..at]) + contents + old(data[at + |contents|..])
    {
      Blit(data, at, contents);
      size := |contents|;
    }
  }
}
