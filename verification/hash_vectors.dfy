/**
 * The reference vectors of the URL hash: five URLs and the 64-bit values
 * Firefox stores for them. Each URL is given by its bytes, eight to a
 * group (the URLs are ASCII, so the bytes are their character codes).
 * The verifier evaluates the fold on one group per lemma, and the groups
 * are joined with `HashFromAppend`.
 */
module HashVectors {
  import opened Wrappers
  import opened Utf8
  import opened UrlHash

  // ------------------------------------------------------------ https URLs

  /** The bytes of "https://", which four of the vectors begin with. */
  const HttpsPrefix: seq<byte> := [104, 116, 116, 112, 115, 58, 47, 47]

  /** The fold over "https://". */
  lemma HttpsPrefixHash()
    ensures HashFrom(0, HttpsPrefix) == 0x4D5A5F78
  {
  }

  /** The hash of the protocol "https". */
  lemma HttpsSchemeHash()
    ensures SimpleHash([104, 116, 116, 112, 115]) == 0x83EE2B12
  {
  }

  /** In a URL that begins with "https://", the first ':' follows "https". */
  lemma HttpsProtocol(rest: seq<byte>)
    ensures FirstColon(HttpsPrefix + rest) == Some(5)
    ensures (HttpsPrefix + rest)[..5] == [104, 116, 116, 112, 115]
  {
    var u := HttpsPrefix + rest;
    assert u[..6] == [104, 116, 116, 112, 115, 58];
    FirstColonAt(u, 5);
  }

  /** The fold over a URL that begins with "https://" continues from the fold over that prefix. */
  lemma HttpsFold(rest: seq<byte>, h: bv32)
    requires HashFrom(0x4D5A5F78, rest) == h
    ensures SimpleHash(HttpsPrefix + rest) == h
  {
    HttpsPrefixHash();
    HashFromAppend(0, HttpsPrefix, rest);
  }

  /**
   * The hash of a URL that begins with "https://": the low 16 bits of the
   * hash of "https" (0x2B12) above the fold over the whole URL.
   */
  lemma HttpsHash(rest: seq<byte>, h: bv32)
    requires HashFrom(0x4D5A5F78, rest) == h
    ensures Hash(HttpsPrefix + rest) == Success(0x2B12_0000_0000 + h as bv64)
  {
    HttpsFold(rest, h);
    HttpsSchemeHash();
    HttpsProtocol(rest);
  }


  // ---------------------------------------------- VaultBitwarden

  const VaultBitwarden1: seq<byte> := [118, 97, 117, 108, 116, 46, 98, 105]
  const VaultBitwarden2: seq<byte> := [116, 119, 97, 114, 100, 101, 110, 46]
  const VaultBitwarden3: seq<byte> := [99, 111, 109, 47]

  /** The bytes of "vault.bitwarden.com/" after "https://". */
  const VaultBitwardenRest: seq<byte> := VaultBitwarden1 + VaultBitwarden2 + VaultBitwarden3

  /** The bytes of "https://vault.bitwarden.com/". */
  const VaultBitwarden: seq<byte> := HttpsPrefix + VaultBitwardenRest

  lemma VaultBitwarden1Hash() ensures HashFrom(0x4D5A5F78, VaultBitwarden1) == 0xE6CA798A {}
  lemma VaultBitwarden2Hash() ensures HashFrom(0xE6CA798A, VaultBitwarden2) == 0x1F72C508 {}
  lemma VaultBitwarden3Hash() ensures HashFrom(0x1F72C508, VaultBitwarden3) == 0x89147406 {}

  lemma VaultBitwardenVector()
    ensures Hash(VaultBitwarden) == Success(47358609224710)
  {
    VaultBitwarden1Hash();
    VaultBitwarden2Hash();
    VaultBitwarden3Hash();
    ghost var done := VaultBitwarden1;
    HashFromAppend(0x4D5A5F78, done, VaultBitwarden2);
    done := done + VaultBitwarden2;
    HashFromAppend(0x4D5A5F78, done, VaultBitwarden3);
    done := done + VaultBitwarden3;
    HttpsHash(VaultBitwardenRest, 0x89147406);
  }

  // ------------------------------------------------- SearchNixos

  const SearchNixos1: seq<byte> := [115, 101, 97, 114, 99, 104, 46, 110]
  const SearchNixos2: seq<byte> := [105, 120, 111, 115, 46, 111, 114, 103]
  const SearchNixos3: seq<byte> := [47]

  /** The bytes of "search.nixos.org/" after "https://". */
  const SearchNixosRest: seq<byte> := SearchNixos1 + SearchNixos2 + SearchNixos3

  /** The bytes of "https://search.nixos.org/". */
  const SearchNixos: seq<byte> := HttpsPrefix + SearchNixosRest

  lemma SearchNixos1Hash() ensures HashFrom(0x4D5A5F78, SearchNixos1) == 0x884AC289 {}
  lemma SearchNixos2Hash() ensures HashFrom(0x884AC289, SearchNixos2) == 0x38B9F91C {}
  lemma SearchNixos3Hash() ensures HashFrom(0x38B9F91C, SearchNixos3) == 0xFD932C68 {}

  lemma SearchNixosVector()
    ensures Hash(SearchNixos) == Success(47360563686504)
  {
    SearchNixos1Hash();
    SearchNixos2Hash();
    SearchNixos3Hash();
    ghost var done := SearchNixos1;
    HashFromAppend(0x4D5A5F78, done, SearchNixos2);
    done := done + SearchNixos2;
    HashFromAppend(0x4D5A5F78, done, SearchNixos3);
    done := done + SearchNixos3;
    HttpsHash(SearchNixosRest, 0xFD932C68);
  }

  // ----------------------------------------------- WikiArchlinux

  const WikiArchlinux1: seq<byte> := [119, 105, 107, 105, 46, 97, 114, 99]
  const WikiArchlinux2: seq<byte> := [104, 108, 105, 110, 117, 120, 46, 111]
  const WikiArchlinux3: seq<byte> := [114, 103, 47]

  /** The bytes of "wiki.archlinux.org/" after "https://". */
  const WikiArchlinuxRest: seq<byte> := WikiArchlinux1 + WikiArchlinux2 + WikiArchlinux3

  /** The bytes of "https://wiki.archlinux.org/". */
  const WikiArchlinux: seq<byte> := HttpsPrefix + WikiArchlinuxRest

  lemma WikiArchlinux1Hash() ensures HashFrom(0x4D5A5F78, WikiArchlinux1) == 0x1AA31AE5 {}
  lemma WikiArchlinux2Hash() ensures HashFrom(0x1AA31AE5, WikiArchlinux2) == 0x0BECE8B0 {}
  lemma WikiArchlinux3Hash() ensures HashFrom(0x0BECE8B0, WikiArchlinux3) == 0x076E5201 {}

  lemma WikiArchlinuxVector()
    ensures Hash(WikiArchlinux) == Success(47356434076161)
  {
    WikiArchlinux1Hash();
    WikiArchlinux2Hash();
    WikiArchlinux3Hash();
    ghost var done := WikiArchlinux1;
    HashFromAppend(0x4D5A5F78, done, WikiArchlinux2);
    done := done + WikiArchlinux2;
    HashFromAppend(0x4D5A5F78, done, WikiArchlinux3);
    done := done + WikiArchlinux3;
    HttpsHash(WikiArchlinuxRest, 0x076E5201);
  }

  // --------------------------------------- JavascriptBookmarklet

  const JavascriptBookmarklet0: seq<byte> := [106, 97, 118, 97, 115, 99, 114, 105]
  const JavascriptBookmarklet1: seq<byte> := [112, 116, 58, 40, 102, 117, 110, 99]
  const JavascriptBookmarklet2: seq<byte> := [116, 105, 111, 110, 40, 41, 37, 55]
  const JavascriptBookmarklet3: seq<byte> := [66, 119, 105, 110, 100, 111, 119, 46]
  const JavascriptBookmarklet4: seq<byte> := [108, 111, 99, 97, 116, 105, 111, 110]
  const JavascriptBookmarklet5: seq<byte> := [37, 50, 48, 37, 51, 68, 37, 50]
  const JavascriptBookmarklet6: seq<byte> := [48, 37, 54, 48, 104, 116, 116, 112]
  const JavascriptBookmarklet7: seq<byte> := [115, 37, 51, 65, 37, 50, 70, 37]
  const JavascriptBookmarklet8: seq<byte> := [50, 70, 101, 108, 107, 46, 122, 111]
  const JavascriptBookmarklet9: seq<byte> := [110, 101, 37, 50, 70, 37, 50, 52]
  const JavascriptBookmarklet10: seq<byte> := [37, 55, 66, 119, 105, 110, 100, 111]
  const JavascriptBookmarklet11: seq<byte> := [119, 46, 108, 111, 99, 97, 116, 105]
  const JavascriptBookmarklet12: seq<byte> := [111, 110, 46, 116, 111, 83, 116, 114]
  const JavascriptBookmarklet13: seq<byte> := [105, 110, 103, 40, 41, 37, 55, 68]
  const JavascriptBookmarklet14: seq<byte> := [37, 54, 48, 37, 51, 66, 37, 55]
  const JavascriptBookmarklet15: seq<byte> := [68, 41, 40, 41, 37, 51, 66]


  /** The bytes of "javascript:(func", the first sixteen. */
  const JavascriptBookmarkletStart: seq<byte> := JavascriptBookmarklet0 + JavascriptBookmarklet1

  /** The bytes of "tion()%7Bwindow.location%20%3D%20%60https%3A%2F%2Felk.zone%2F%24%7Bwindow.location.toString()%7D%60%3B%7D)()%3B", after the first sixteen. */
  const JavascriptBookmarkletRest: seq<byte> := JavascriptBookmarklet2 + JavascriptBookmarklet3 + JavascriptBookmarklet4 + JavascriptBookmarklet5 + JavascriptBookmarklet6 + JavascriptBookmarklet7 + JavascriptBookmarklet8 + JavascriptBookmarklet9 + JavascriptBookmarklet10 + JavascriptBookmarklet11 + JavascriptBookmarklet12 + JavascriptBookmarklet13 + JavascriptBookmarklet14 + JavascriptBookmarklet15

  /** The bytes of "javascript:(function()%7Bwindow.location%20%3D%20%60https%3A%2F%2Felk.zone%2F%24%7Bwindow.location.toString()%7D%60%3B%7D)()%3B". */
  const JavascriptBookmarklet: seq<byte> := JavascriptBookmarkletStart + JavascriptBookmarkletRest

  lemma JavascriptBookmarklet0Hash() ensures HashFrom(0x00000000, JavascriptBookmarklet0) == 0xA59241E8 {}
  lemma JavascriptBookmarklet1Hash() ensures HashFrom(0xA59241E8, JavascriptBookmarklet1) == 0x68F94784 {}
  lemma JavascriptBookmarklet2Hash() ensures HashFrom(0x68F94784, JavascriptBookmarklet2) == 0x0B24854F {}
  lemma JavascriptBookmarklet3Hash() ensures HashFrom(0x0B24854F, JavascriptBookmarklet3) == 0xCD324A8D {}
  lemma JavascriptBookmarklet4Hash() ensures HashFrom(0xCD324A8D, JavascriptBookmarklet4) == 0xD3F6DDAB {}
  lemma JavascriptBookmarklet5Hash() ensures HashFrom(0xD3F6DDAB, JavascriptBookmarklet5) == 0x0A87042E {}
  lemma JavascriptBookmarklet6Hash() ensures HashFrom(0x0A87042E, JavascriptBookmarklet6) == 0xA2AC719C {}
  lemma JavascriptBookmarklet7Hash() ensures HashFrom(0xA2AC719C, JavascriptBookmarklet7) == 0x946C3BBA {}
  lemma JavascriptBookmarklet8Hash() ensures HashFrom(0x946C3BBA, JavascriptBookmarklet8) == 0xEBB18D21 {}
  lemma JavascriptBookmarklet9Hash() ensures HashFrom(0xEBB18D21, JavascriptBookmarklet9) == 0x8D05ED9A {}
  lemma JavascriptBookmarklet10Hash() ensures HashFrom(0x8D05ED9A, JavascriptBookmarklet10) == 0xFDD50986 {}
  lemma JavascriptBookmarklet11Hash() ensures HashFrom(0xFDD50986, JavascriptBookmarklet11) == 0x0DA45AD4 {}
  lemma JavascriptBookmarklet12Hash() ensures HashFrom(0x0DA45AD4, JavascriptBookmarklet12) == 0xCA34FBF4 {}
  lemma JavascriptBookmarklet13Hash() ensures HashFrom(0xCA34FBF4, JavascriptBookmarklet13) == 0x771CB8C8 {}
  lemma JavascriptBookmarklet14Hash() ensures HashFrom(0x771CB8C8, JavascriptBookmarklet14) == 0xCB9B6438 {}
  lemma JavascriptBookmarklet15Hash() ensures HashFrom(0xCB9B6438, JavascriptBookmarklet15) == 0xCAFA69DC {}

  /** The hash of the protocol "javascript". */
  lemma JavascriptBookmarkletSchemeHash()
    ensures SimpleHash([106, 97, 118, 97, 115, 99, 114, 105, 112, 116]) == 0xB23F37A8
  {
    JavascriptBookmarklet0Hash();
    assert HashFrom(0xA59241E8, [112, 116]) == 0xB23F37A8;
    HashFromAppend(0, JavascriptBookmarklet0, [112, 116]);
    assert JavascriptBookmarklet0 + [112, 116] == [106, 97, 118, 97, 115, 99, 114, 105, 112, 116];
  }

  /** The first ':' is at index 10, after "javascript". */
  lemma JavascriptBookmarkletProtocol()
    ensures FirstColon(JavascriptBookmarklet) == Some(10)
    ensures JavascriptBookmarklet[..10] == [106, 97, 118, 97, 115, 99, 114, 105, 112, 116]
  {
    assert JavascriptBookmarklet[..11] == [106, 97, 118, 97, 115, 99, 114, 105, 112, 116, 58];
    FirstColonAt(JavascriptBookmarklet, 10);
  }

  lemma JavascriptBookmarkletVector()
    ensures Hash(JavascriptBookmarklet) == Success(61198099442140)
  {
    JavascriptBookmarklet2Hash();
    JavascriptBookmarklet3Hash();
    JavascriptBookmarklet4Hash();
    JavascriptBookmarklet5Hash();
    JavascriptBookmarklet6Hash();
    JavascriptBookmarklet7Hash();
    JavascriptBookmarklet8Hash();
    JavascriptBookmarklet9Hash();
    JavascriptBookmarklet10Hash();
    JavascriptBookmarklet11Hash();
    JavascriptBookmarklet12Hash();
    JavascriptBookmarklet13Hash();
    JavascriptBookmarklet14Hash();
    JavascriptBookmarklet15Hash();
    ghost var done := JavascriptBookmarklet2;
    HashFromAppend(0x68F94784, done, JavascriptBookmarklet3);
    done := done + JavascriptBookmarklet3;
    HashFromAppend(0x68F94784, done, JavascriptBookmarklet4);
    done := done + JavascriptBookmarklet4;
    HashFromAppend(0x68F94784, done, JavascriptBookmarklet5);
    done := done + JavascriptBookmarklet5;
    HashFromAppend(0x68F94784, done, JavascriptBookmarklet6);
    done := done + JavascriptBookmarklet6;
    HashFromAppend(0x68F94784, done, JavascriptBookmarklet7);
    done := done + JavascriptBookmarklet7;
    HashFromAppend(0x68F94784, done, JavascriptBookmarklet8);
    done := done + JavascriptBookmarklet8;
    HashFromAppend(0x68F94784, done, JavascriptBookmarklet9);
    done := done + JavascriptBookmarklet9;
    HashFromAppend(0x68F94784, done, JavascriptBookmarklet10);
    done := done + JavascriptBookmarklet10;
    HashFromAppend(0x68F94784, done, JavascriptBookmarklet11);
    done := done + JavascriptBookmarklet11;
    HashFromAppend(0x68F94784, done, JavascriptBookmarklet12);
    done := done + JavascriptBookmarklet12;
    HashFromAppend(0x68F94784, done, JavascriptBookmarklet13);
    done := done + JavascriptBookmarklet13;
    HashFromAppend(0x68F94784, done, JavascriptBookmarklet14);
    done := done + JavascriptBookmarklet14;
    HashFromAppend(0x68F94784, done, JavascriptBookmarklet15);
    done := done + JavascriptBookmarklet15;
    JavascriptBookmarklet0Hash();
    JavascriptBookmarklet1Hash();
    HashFromAppend(0, JavascriptBookmarklet0, JavascriptBookmarklet1);
    HashFromAppend(0, JavascriptBookmarkletStart, JavascriptBookmarkletRest);
    JavascriptBookmarkletSchemeHash();
    JavascriptBookmarkletProtocol();
  }

  // ------------------------------------------------ MozillaAbout

  const MozillaAbout1: seq<byte> := [119, 119, 119, 46, 109, 111, 122, 105]
  const MozillaAbout2: seq<byte> := [108, 108, 97, 46, 111, 114, 103, 47]
  const MozillaAbout3: seq<byte> := [97, 98, 111, 117, 116, 47]

  /** The bytes of "www.mozilla.org/about/" after "https://". */
  const MozillaAboutRest: seq<byte> := MozillaAbout1 + MozillaAbout2 + MozillaAbout3

  /** The bytes of "https://www.mozilla.org/about/". */
  const MozillaAbout: seq<byte> := HttpsPrefix + MozillaAboutRest

  lemma MozillaAbout1Hash() ensures HashFrom(0x4D5A5F78, MozillaAbout1) == 0xA81C542E {}
  lemma MozillaAbout2Hash() ensures HashFrom(0xA81C542E, MozillaAbout2) == 0x6E0A14CD {}
  lemma MozillaAbout3Hash() ensures HashFrom(0x6E0A14CD, MozillaAbout3) == 0x4D6D7C3D {}

  lemma MozillaAboutVector()
    ensures Hash(MozillaAbout) == Success(47357608426557)
  {
    MozillaAbout1Hash();
    MozillaAbout2Hash();
    MozillaAbout3Hash();
    ghost var done := MozillaAbout1;
    HashFromAppend(0x4D5A5F78, done, MozillaAbout2);
    done := done + MozillaAbout2;
    HashFromAppend(0x4D5A5F78, done, MozillaAbout3);
    done := done + MozillaAbout3;
    HttpsHash(MozillaAboutRest, 0x4D6D7C3D);
  }

  /** The four `https` vectors share bits 32 to 47: the low 16 bits of the hash of "https". */
  lemma HttpsVectorsShareProtocolBits()
    ensures Hash(VaultBitwarden).Success? && Hash(VaultBitwarden).value >> 32 == 11026
    ensures Hash(SearchNixos).Success? && Hash(SearchNixos).value >> 32 == 11026
    ensures Hash(WikiArchlinux).Success? && Hash(WikiArchlinux).value >> 32 == 11026
    ensures Hash(MozillaAbout).Success? && Hash(MozillaAbout).value >> 32 == 11026
  {
    VaultBitwardenVector();
    SearchNixosVector();
    WikiArchlinuxVector();
    MozillaAboutVector();
  }
}
