/**
 Texts worked out by hand: what the encoder writes for three host labels, with one insertion
 and with two, and with and without basic code points.
 */
module PunycodeSamples {
  import opened Wrappers
  import opened PunycodeDecoder
  import opened Punycode
  import opened PunycodeUnique

  lemma ExampleDelta1()
    ensures DecodeFrom(Decoder(128, 0, 72, []), "r8jz45g") == DecodeFrom(Decoder(12360, 1, 17, [12360]), "z45g")
  {
    assert "r8jz45g"[1..] == "8jz45g";
    assert "8jz45g"[1..] == "jz45g";
    assert "jz45g"[1..] == "z45g";
    assert ReadDelta("jz45g", 108, 72, 1225, 1207) == Some((12232, "z45g"));
    assert ReadDelta("8jz45g", 72, 72, 35, 17) == Some((12232, "z45g"));
    assert ReadDelta("r8jz45g", 36, 72, 1, 0) == Some((12232, "z45g"));
    assert 12232 / 1 == 12232 && 12232 % 1 == 0;
    assert NextBias(12232, 1, true) == 17;
    assert Inserted(Decoder(128, 0, 72, []), 12232) == Decoder(12360, 1, 17, [12360]);
  }

  lemma ExampleDelta2()
    ensures DecodeFrom(Decoder(12360, 1, 17, [12360]), "z45g") == DecodeFrom(Decoder(20363, 1, 68, [20363, 12360]), "")
  {
    assert "z45g"[1..] == "45g";
    assert "45g"[1..] == "5g";
    assert "5g"[1..] == "g";
    assert "g"[1..] == "";
    assert ReadDelta("g", 144, 17, 1700, 5806) == Some((16006, ""));
    assert ReadDelta("5g", 108, 17, 170, 536) == Some((16006, ""));
    assert ReadDelta("45g", 72, 17, 17, 26) == Some((16006, ""));
    assert ReadDelta("z45g", 36, 17, 1, 1) == Some((16006, ""));
    assert 16006 / 2 == 8003 && 16006 % 2 == 0;
    assert NextBias(16005, 2, false) == 68;
    assert Inserted(Decoder(12360, 1, 17, [12360]), 16006) == Decoder(20363, 1, 68, [20363, 12360]);
  }


  lemma UmlautDelta1()
    ensures DecodeFrom(Decoder(128, 0, 72, []), "4ca0b") == DecodeFrom(Decoder(228, 1, 0, [228]), "0b")
  {
    assert "4ca0b"[1..] == "ca0b";
    assert "ca0b"[1..] == "a0b";
    assert "a0b"[1..] == "0b";
    assert ReadDelta("a0b", 108, 72, 1225, 100) == Some((100, "0b"));
    assert ReadDelta("ca0b", 72, 72, 35, 30) == Some((100, "0b"));
    assert ReadDelta("4ca0b", 36, 72, 1, 0) == Some((100, "0b"));
    assert 100 / 1 == 100 && 100 % 1 == 0;
    assert NextBias(100, 1, true) == 0;
    assert Inserted(Decoder(128, 0, 72, []), 100) == Decoder(228, 1, 0, [228]);
  }

  lemma UmlautDelta2()
    ensures DecodeFrom(Decoder(228, 1, 0, [228]), "0b") == DecodeFrom(Decoder(246, 2, 14, [228, 246]), "")
  {
    assert "0b"[1..] == "b";
    assert "b"[1..] == "";
    assert ReadDelta("b", 72, 0, 10, 27) == Some((37, ""));
    assert ReadDelta("0b", 36, 0, 1, 1) == Some((37, ""));
    assert 37 / 2 == 18 && 37 % 2 == 1;
    assert NextBias(36, 2, false) == 14;
    assert Inserted(Decoder(228, 1, 0, [228]), 37) == Decoder(246, 2, 14, [228, 246]);
  }


  lemma BooksDelta()
    ensures DecodeFrom(Decoder(128, 0, 72, [98, 99, 104, 101, 114]), "kva") == DecodeFrom(Decoder(252, 2, 0, [98, 252, 99, 104, 101, 114]), "")
  {
    assert "kva"[1..] == "va";
    assert "va"[1..] == "a";
    assert "a"[1..] == "";
    assert ReadDelta("a", 108, 72, 1225, 745) == Some((745, ""));
    assert ReadDelta("va", 72, 72, 35, 10) == Some((745, ""));
    assert ReadDelta("kva", 36, 72, 1, 0) == Some((745, ""));
    assert 745 / 6 == 124 && 745 % 6 == 1;
    assert NextBias(745, 6, true) == 0;
    assert Inserted(Decoder(128, 0, 72, [98, 99, 104, 101, 114]), 745) == Decoder(252, 2, 0, [98, 252, 99, 104, 101, 114]);
  }


  const EXAMPLE: seq<CodePoint> := [0x4F8B, 0x3048]
  const UMLAUTS: seq<CodePoint> := [0xE4, 0xF6]
  const BOOKS: seq<CodePoint> := [98, 0xFC, 99, 104, 101, 114]

  lemma DecodesAll(st: Decoder)
    ensures DecodeFrom(st, "") == Some(st.output)
  {
  }

  lemma DecodesWithoutBasics(s: string, out: seq<nat>)
    requires AllLower(s) && DecodeFrom(Decoder(128, 0, 72, []), s) == Some(out)
    ensures Decode(s) == Some(out)
  {
    SplitsAtDelimiter("", s);
    hide DecodeFrom, BasicCount;
    assert CodePoints(s[..0]) == [];
  }

  lemma ExampleDecodes()
    ensures Decode("r8jz45g") == Some(EXAMPLE)
  {
    hide DecodeFrom, Decode;
    ExampleDelta1();
    ExampleDelta2();
    DecodesAll(Decoder(20363, 1, 68, [20363, 12360]));
    DecodesWithoutBasics("r8jz45g", EXAMPLE);
  }

  lemma UmlautsDecode()
    ensures Decode("4ca0b") == Some(UMLAUTS)
  {
    hide DecodeFrom, Decode;
    UmlautDelta1();
    UmlautDelta2();
    DecodesAll(Decoder(246, 2, 14, [228, 246]));
    DecodesWithoutBasics("4ca0b", UMLAUTS);
  }

  lemma BooksDecode()
    ensures Decode("bcher-kva") == Some(BOOKS)
  {
    hide DecodeFrom;
    BooksDelta();
    DecodesAll(Decoder(252, 2, 0, [98, 252, 99, 104, 101, 114]));
    SplitsAtDelimiter("bcher", "kva");
    hide BasicCount;
    var s := "bcher" + "-" + "kva";
    assert s == "bcher-kva" && s[..5] == "bcher" && s[6..] == "kva";
    assert CodePoints("bcher") == [98, 99, 104, 101, 114];
  }

  lemma BasicCharsMore(s: seq<CodePoint>, c: CodePoint)
    ensures BasicChars(s + [c]) == BasicChars(s) + if c < 0x80 then [c as char] else ""
  {
    assert (s + [c])[..|s|] == s;
  }

  lemma WithoutBasics(a: CodePoint, b: CodePoint, s: string)
    requires a >= 0x80 && b >= 0x80 && AllLower(s)
    ensures WellFormed([a, b], s)
  {
    BasicCharsMore([], a);
    BasicCharsMore([a], b);
    assert [] + [a] == [a] && [a] + [b] == [a, b];
    assert BasicChars([]) == "";
    hide BasicChars;
    assert s[0..] == s;
  }

  lemma BooksForm()
    ensures WellFormed(BOOKS, "bcher-kva")
  {
    var books: seq<CodePoint> := [];
    assert BasicChars(books) == "";
    hide BasicChars, AllLower;
    BasicCharsMore(books, 98);
    BasicCharsMore([98], 0xFC);
    BasicCharsMore([98, 0xFC], 99);
    BasicCharsMore([98, 0xFC, 99], 104);
    BasicCharsMore([98, 0xFC, 99, 104], 101);
    BasicCharsMore([98, 0xFC, 99, 104, 101], 114);
    assert books + [98] == [98] && [98] + [0xFC] == [98, 0xFC] && [98, 0xFC] + [99] == [98, 0xFC, 99];
    assert [98, 0xFC, 99] + [104] == [98, 0xFC, 99, 104] && [98, 0xFC, 99, 104] + [101] == [98, 0xFC, 99, 104, 101];
    assert [98, 0xFC, 99, 104, 101] + [114] == BOOKS;
    assert BasicChars(BOOKS) == "bcher";
    assert "bcher-kva"[..6] == "bcher-" && "bcher-kva"[6..] == "kva";
    LowerKva();
  }

  lemma LowerKva()
    ensures AllLower("kva")
  {
  }

  /** Whatever decodes to one of the labels in the form the encoder writes is the text worked
      out, so the encoder writes just that. */
  lemma SamplesEncode(out: string)
    ensures WellFormed(EXAMPLE, out) && Decode(out) == Some(EXAMPLE) <==> out == "r8jz45g"
    ensures WellFormed(UMLAUTS, out) && Decode(out) == Some(UMLAUTS) <==> out == "4ca0b"
    ensures WellFormed(BOOKS, out) && Decode(out) == Some(BOOKS) <==> out == "bcher-kva"
  {
    hide Decode, WellFormed;
    ExampleDecodes();
    UmlautsDecode();
    BooksDecode();
    WithoutBasics(0x4F8B, 0x3048, "r8jz45g");
    WithoutBasics(0xE4, 0xF6, "4ca0b");
    BooksForm();
    if WellFormed(EXAMPLE, out) && Decode(out) == Some(EXAMPLE) { EncodingUnique(EXAMPLE, out, "r8jz45g"); }
    if WellFormed(UMLAUTS, out) && Decode(out) == Some(UMLAUTS) { EncodingUnique(UMLAUTS, out, "4ca0b"); }
    if WellFormed(BOOKS, out) && Decode(out) == Some(BOOKS) { EncodingUnique(BOOKS, out, "bcher-kva"); }
  }
}
