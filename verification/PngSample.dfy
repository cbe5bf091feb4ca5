/** A genuine image: one black pixel, byte by byte as an encoder writes it. */
module PngSample {
  import opened Common
  import opened Crc32
  import opened Png

  function EightSteps(x: word): word {
    Step(Step(Step(Step(Step(Step(Step(Step(x))))))))
  }

  lemma Takes(crc: word, b: byte, next: word)
    requires next == EightSteps(crc ^ (b as word))
    ensures Update(crc, b) == next
  {
    IterateUnrolls(Step, crc ^ (b as word));
  }

  lemma TakeOne(update: (word, byte) -> word, crc: word, b: byte, rest: seq<byte>)
    ensures Consumed(update, crc, [b] + rest) == Consumed(update, update(crc, b), rest)
  {
    assert ([b] + rest)[1..] == rest;
  }

  lemma RunOne(crc: word, b: byte, next: word, rest: seq<byte>)
    requires Update(crc, b) == next
    ensures Run(crc, [b] + rest) == Run(next, rest)
  {
    TakeOne(Update, crc, b, rest);
  }

  lemma TakeFour(update: (word, byte) -> word, crc: word, a: byte, b: byte, c: byte, d: byte, rest: seq<byte>)
    ensures Consumed(update, crc, [a, b, c, d] + rest) ==
            Consumed(update, update(update(update(update(crc, a), b), c), d), rest)
  {
    TakeOne(update, crc, a, [b] + ([c] + ([d] + rest)));
    TakeOne(update, update(crc, a), b, [c] + ([d] + rest));
    TakeOne(update, update(update(crc, a), b), c, [d] + rest);
    TakeOne(update, update(update(update(crc, a), b), c), d, rest);
    assert [a, b, c, d] + rest == [a] + ([b] + ([c] + ([d] + rest)));
  }

  lemma HeaderPart1(rest: seq<byte>)
    ensures Run(0xffff_ffff, [0x49, 0x48, 0x44, 0x52] + rest) == Run(0x575e_51f5, rest)
  {
    Takes(0xffff_ffff, 0x49, 0x22fd_e946);
    Takes(0x22fd_e946, 0x48, 0xe79a_d0ee);
    Takes(0xe79a_d0ee, 0x44, 0x36e4_d026);
    Takes(0x36e4_d026, 0x52, 0x575e_51f5);
    TakeFour(Update, 0xffff_ffff, 0x49, 0x48, 0x44, 0x52, rest);
  }

  lemma HeaderPart2(rest: seq<byte>)
    ensures Run(0x575e_51f5, [0x00, 0x00, 0x00, 0x01] + rest) == Run(0x7af6_2609, rest)
  {
    Takes(0x575e_51f5, 0x00, 0xcd80_58c2);
    Takes(0xcd80_58c2, 0x00, 0x75a7_23c4);
    Takes(0x75a7_23c4, 0x00, 0x9c7c_a18a);
    Takes(0x9c7c_a18a, 0x01, 0x7af6_2609);
    TakeFour(Update, 0x575e_51f5, 0x00, 0x00, 0x00, 0x01, rest);
  }

  lemma HeaderPart3(rest: seq<byte>)
    ensures Run(0x7af6_2609, [0x00, 0x00, 0x00, 0x01] + rest) == Run(0xc4f9_9b57, rest)
  {
    Takes(0x7af6_2609, 0x00, 0x79a6_4e82);
    Takes(0x79a6_4e82, 0x00, 0x03cf_4442);
    Takes(0x03cf_4442, 0x00, 0x98d1_eff8);
    Takes(0x98d1_eff8, 0x01, 0xc4f9_9b57);
    TakeFour(Update, 0x7af6_2609, 0x00, 0x00, 0x00, 0x01, rest);
  }

  lemma HeaderPart4(rest: seq<byte>)
    ensures Run(0xc4f9_9b57, [0x08, 0x00, 0x00, 0x00] + rest) == Run(0x3b5f_14b8, rest)
  {
    Takes(0xc4f9_9b57, 0x08, 0xfb10_b5fe);
    Takes(0xfb10_b5fe, 0x00, 0x5afe_cfae);
    Takes(0x5afe_cfae, 0x00, 0x3134_7020);
    Takes(0x3134_7020, 0x00, 0x3b5f_14b8);
    TakeFour(Update, 0xc4f9_9b57, 0x08, 0x00, 0x00, 0x00, rest);
  }

  lemma HeaderLast()
    ensures Update(0x3b5f_14b8, 0x00) == 0xc581_64aa
  {
    Takes(0x3b5f_14b8, 0x00, 0xc581_64aa);
  }

  lemma HeaderPart5(rest: seq<byte>)
    ensures Run(0x3b5f_14b8, [0x00] + rest) == Run(0xc581_64aa, rest)
  {
    HeaderLast();
    RunOne(0x3b5f_14b8, 0x00, 0xc581_64aa, rest);
  }

  lemma DataPart1(rest: seq<byte>)
    ensures Run(0xffff_ffff, [0x49, 0x44, 0x41, 0x54] + rest) == Run(0xca50_f9e1, rest)
  {
    Takes(0xffff_ffff, 0x49, 0x22fd_e946);
    Takes(0x22fd_e946, 0x44, 0xee2c_9cc5);
    Takes(0xee2c_9cc5, 0x41, 0xea3b_6ba5);
    Takes(0xea3b_6ba5, 0x54, 0xca50_f9e1);
    TakeFour(Update, 0xffff_ffff, 0x49, 0x44, 0x41, 0x54, rest);
  }

  lemma DataPart2(rest: seq<byte>)
    ensures Run(0xca50_f9e1, [0x78, 0x01, 0x01, 0x02] + rest) == Run(0x4d80_aad1, rest)
  {
    Takes(0xca50_f9e1, 0x78, 0x8919_7b19);
    Takes(0x8919_7b19, 0x01, 0x13e5_812d);
    Takes(0x13e5_812d, 0x01, 0x32cb_8962);
    Takes(0x32cb_8962, 0x02, 0x4d80_aad1);
    TakeFour(Update, 0xca50_f9e1, 0x78, 0x01, 0x01, 0x02, rest);
  }

  lemma DataPart3(rest: seq<byte>)
    ensures Run(0x4d80_aad1, [0x00, 0xFD, 0xFF, 0x00] + rest) == Run(0x57d1_bedd, rest)
  {
    Takes(0x4d80_aad1, 0x00, 0xf199_62e8);
    Takes(0xf199_62e8, 0xFD, 0x6d2c_7d89);
    Takes(0x6d2c_7d89, 0xFF, 0xb90b_f874);
    Takes(0xb90b_f874, 0x00, 0x57d1_bedd);
    TakeFour(Update, 0x4d80_aad1, 0x00, 0xFD, 0xFF, 0x00, rest);
  }

  lemma DataPart4(rest: seq<byte>)
    ensures Run(0x57d1_bedd, [0x00, 0x00, 0x02, 0x00] + rest) == Run(0x44e4_e0d5, rest)
  {
    Takes(0x57d1_bedd, 0x00, 0xf835_7fd7);
    Takes(0xf835_7fd7, 0x00, 0x184f_7208);
    Takes(0x184f_7208, 0x02, 0xe0cd_a66c);
    Takes(0xe0cd_a66c, 0x00, 0x44e4_e0d5);
    TakeFour(Update, 0x57d1_bedd, 0x00, 0x00, 0x02, 0x00, rest);
  }

  lemma DataLast()
    ensures Update(0x44e4_e0d5, 0x01) == 0x81fa_f22d
  {
    Takes(0x44e4_e0d5, 0x01, 0x81fa_f22d);
  }

  lemma DataPart5(rest: seq<byte>)
    ensures Run(0x44e4_e0d5, [0x01] + rest) == Run(0x81fa_f22d, rest)
  {
    DataLast();
    RunOne(0x44e4_e0d5, 0x01, 0x81fa_f22d, rest);
  }

  const WIDTH: seq<byte> := [0x00, 0x00, 0x00, 0x01]
  const HEADER: seq<byte> := WIDTH + (WIDTH + ([0x08, 0x00, 0x00, 0x00] + [0x00]))
  const DATA: seq<byte> := [0x78, 0x01, 0x01, 0x02] + ([0x00, 0xFD, 0xFF, 0x00] + ([0x00, 0x00, 0x02, 0x00] + [0x01]))

  lemma EndPart(rest: seq<byte>)
    ensures Run(0xffff_ffff, IEND + rest) == Run(0x51bd_9f7d, rest)
  {
    Takes(0xffff_ffff, 0x49, 0x22fd_e946);
    Takes(0x22fd_e946, 0x45, 0x992b_ac53);
    Takes(0x992b_ac53, 0x4E, 0x639f_4775);
    Takes(0x639f_4775, 0x44, 0x51bd_9f7d);
    TakeFour(Update, 0xffff_ffff, 0x49, 0x45, 0x4E, 0x44, rest);
  }

  lemma EndCrc()
    ensures Crc(IEND) == 0xae42_6082
  {
    EndPart([]);
    assert IEND + [] == IEND;
    CrcIsRun(IEND);
  }

  lemma HeaderCrc()
    ensures Crc(IHDR + HEADER) == 0x3a7e_9b55
  {
    HeaderPart1(HEADER);
    HeaderPart2(WIDTH + ([0x08, 0x00, 0x00, 0x00] + [0x00]));
    HeaderPart3([0x08, 0x00, 0x00, 0x00] + [0x00]);
    HeaderPart4([0x00]);
    HeaderPart5([]);
    assert [0x00] + [] == [0x00];
    CrcIsRun(IHDR + HEADER);
  }

  lemma DataCrc()
    ensures Crc(IDAT + DATA) == 0x7e05_0dd2
  {
    DataPart1(DATA);
    DataPart2([0x00, 0xFD, 0xFF, 0x00] + ([0x00, 0x00, 0x02, 0x00] + [0x01]));
    DataPart3([0x00, 0x00, 0x02, 0x00] + [0x01]);
    DataPart4([0x01]);
    DataPart5([]);
    assert [0x01] + [] == [0x01];
    CrcIsRun(IDAT + DATA);
  }

  // ------------------------------------------------------------------------ the image

  const END_FRAME: seq<byte> :=
    Frame([0x00, 0x00, 0x00, 0x00], [0x49, 0x45, 0x4E, 0x44], [0xAE, 0x42, 0x60, 0x82])

  const IMAGE: seq<byte> :=
    [0x89, 0x50, 0x4E, 0x47, 0x0D, 0x0A, 0x1A, 0x0A]
    + (Frame([0x00, 0x00, 0x00, 0x0D], [0x49, 0x48, 0x44, 0x52] + HEADER, [0x3A, 0x7E, 0x9B, 0x55])
       + (Frame([0x00, 0x00, 0x00, 0x0D], [0x49, 0x44, 0x41, 0x54] + DATA, [0x7E, 0x05, 0x0D, 0xD2])
          + END_FRAME))

  lemma SmallDigits()
    ensures Digits(13) == [0x00, 0x00, 0x00, 0x0D] && Digits(0) == [0x00, 0x00, 0x00, 0x00]
  {
    ByteRoundTrip(13);
    ByteRoundTrip(0);
  }

  lemma SampleCrcBytes()
    ensures CrcBytes(0x3a7e_9b55) == [0x3A, 0x7E, 0x9B, 0x55] && CrcBytes(0x7e05_0dd2) == [0x7E, 0x05, 0x0D, 0xD2]
    ensures CrcBytes(0xae42_6082) == [0xAE, 0x42, 0x60, 0x82]
  {
  }

  lemma EndIsEncoded()
    ensures Encode(Chunk(IEND, [])) == END_FRAME
  {
    EndCrc();
    SmallDigits();
    SampleCrcBytes();
    assert IEND + [] == IEND;
  }

  lemma EndsWithLast(write: Writer, chunks: seq<Chunk>) returns (front: seq<byte>)
    requires chunks != []
    ensures EncodeAll(write, chunks) == front + write(chunks[|chunks| - 1])
  {
    var n := |chunks| - 1;
    EncodeAllSplits(write, chunks, n);
    front := EncodeAll(write, chunks[..n]);
    assert chunks[n + 1..] == [] && write(chunks[n]) + [] == write(chunks[n]);
  }

  /** Every accepted image ends with the same twelve bytes, the CRC included. */
  lemma ImagesEndAlike(bytes: seq<byte>) returns (front: seq<byte>)
    requires IsPng(bytes)
    ensures bytes == [0x89, 0x50, 0x4E, 0x47, 0x0D, 0x0A, 0x1A, 0x0A] + front + END_FRAME
  {
    var chunks :| IsImage(GoodHeader, chunks, false, false) && bytes == SIGNATURE + EncodeAll(Encode, chunks);
    EndIsEncoded();
    front := EndsWithLast(Encode, chunks);
    Regroup(SIGNATURE, front, END_FRAME);
  }

  lemma SampleHeaderIsGood()
    ensures GoodHeader(Chunk(IHDR, HEADER))
  {
    assert HEADER[..4] == WIDTH && HEADER[4..8] == WIDTH;
    assert HEADER[8..] == [0x08, 0x00, 0x00, 0x00, 0x00];
    ByteRoundTrip(1);
    ByteRoundTrip(0);
  }

  /** The image is accepted. */
  lemma SampleIsAccepted()
    ensures IsPng(IMAGE)
  {
    var chunks := [Chunk(IHDR, HEADER), Chunk(IDAT, DATA), Chunk(IEND, [])];
    SampleHeaderIsGood();
    assert HasData(chunks[1]) && chunks[1] in chunks;
    assert IsImage(GoodHeader, chunks, false, false);
    SampleEncodes(chunks);
  }

  lemma SampleEncodes(chunks: seq<Chunk>)
    requires chunks == [Chunk(IHDR, HEADER), Chunk(IDAT, DATA), Chunk(IEND, [])]
    ensures SIGNATURE + EncodeAll(Encode, chunks) == IMAGE
  {
    HeaderCrc();
    DataCrc();
    SmallDigits();
    SampleCrcBytes();
    EndIsEncoded();
    assert chunks[1..][1..] == [Chunk(IEND, [])];
    assert EncodeAll(Encode, [Chunk(IEND, [])]) == END_FRAME + [] == END_FRAME;
  }
}
