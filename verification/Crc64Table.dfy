/** The table of `crc64`, sixteen entries a row, against eight steps of reflected
    division by the Jones polynomial. */
module Crc64Table {

  /** 0xad93d23594c935a9 with its bits reversed. */
  const POLY: bv64 := 0x95ac9329ac4bc9b5

  /** One bit of reflected division. */
  function Shift1(x: bv64): bv64 { if x & 1 != 0 then (x >> 1) ^ POLY else x >> 1 }

  function Shift4(x: bv64): bv64 { Shift1(Shift1(Shift1(Shift1(x)))) }

  /** One byte of it. */
  function Shift8(x: bv64): bv64 { Shift4(Shift4(x)) }

  function Row0(l: bv8): bv64 {
    if l == 0 then 0x0000000000000000 else if l == 1 then 0x7ad870c830358979 else
    if l == 2 then 0xf5b0e190606b12f2 else if l == 3 then 0x8f689158505e9b8b else
    if l == 4 then 0xc038e5739841b68f else if l == 5 then 0xbae095bba8743ff6 else
    if l == 6 then 0x358804e3f82aa47d else if l == 7 then 0x4f50742bc81f2d04 else
    if l == 8 then 0xab28ecb46814fe75 else if l == 9 then 0xd1f09c7c5821770c else
    if l == 10 then 0x5e980d24087fec87 else if l == 11 then 0x24407dec384a65fe else
    if l == 12 then 0x6b1009c7f05548fa else if l == 13 then 0x11c8790fc060c183 else
    if l == 14 then 0x9ea0e857903e5a08 else 0xe478989fa00bd371
  }

  function Row1(l: bv8): bv64 {
    if l == 0 then 0x7d08ff3b88be6f81 else if l == 1 then 0x07d08ff3b88be6f8 else
    if l == 2 then 0x88b81eabe8d57d73 else if l == 3 then 0xf2606e63d8e0f40a else
    if l == 4 then 0xbd301a4810ffd90e else if l == 5 then 0xc7e86a8020ca5077 else
    if l == 6 then 0x4880fbd87094cbfc else if l == 7 then 0x32588b1040a14285 else
    if l == 8 then 0xd620138fe0aa91f4 else if l == 9 then 0xacf86347d09f188d else
    if l == 10 then 0x2390f21f80c18306 else if l == 11 then 0x594882d7b0f40a7f else
    if l == 12 then 0x1618f6fc78eb277b else if l == 13 then 0x6cc0863448deae02 else
    if l == 14 then 0xe3a8176c18803589 else 0x997067a428b5bcf0
  }

  function Row2(l: bv8): bv64 {
    if l == 0 then 0xfa11fe77117cdf02 else if l == 1 then 0x80c98ebf2149567b else
    if l == 2 then 0x0fa11fe77117cdf0 else if l == 3 then 0x75796f2f41224489 else
    if l == 4 then 0x3a291b04893d698d else if l == 5 then 0x40f16bccb908e0f4 else
    if l == 6 then 0xcf99fa94e9567b7f else if l == 7 then 0xb5418a5cd963f206 else
    if l == 8 then 0x513912c379682177 else if l == 9 then 0x2be1620b495da80e else
    if l == 10 then 0xa489f35319033385 else if l == 11 then 0xde51839b2936bafc else
    if l == 12 then 0x9101f7b0e12997f8 else if l == 13 then 0xebd98778d11c1e81 else
    if l == 14 then 0x64b116208142850a else 0x1e6966e8b1770c73
  }

  function Row3(l: bv8): bv64 {
    if l == 0 then 0x8719014c99c2b083 else if l == 1 then 0xfdc17184a9f739fa else
    if l == 2 then 0x72a9e0dcf9a9a271 else if l == 3 then 0x08719014c99c2b08 else
    if l == 4 then 0x4721e43f0183060c else if l == 5 then 0x3df994f731b68f75 else
    if l == 6 then 0xb29105af61e814fe else if l == 7 then 0xc849756751dd9d87 else
    if l == 8 then 0x2c31edf8f1d64ef6 else if l == 9 then 0x56e99d30c1e3c78f else
    if l == 10 then 0xd9810c6891bd5c04 else if l == 11 then 0xa3597ca0a188d57d else
    if l == 12 then 0xec09088b6997f879 else if l == 13 then 0x96d1784359a27100 else
    if l == 14 then 0x19b9e91b09fcea8b else 0x636199d339c963f2
  }

  function Row4(l: bv8): bv64 {
    if l == 0 then 0xdf7adabd7a6e2d6f else if l == 1 then 0xa5a2aa754a5ba416 else
    if l == 2 then 0x2aca3b2d1a053f9d else if l == 3 then 0x50124be52a30b6e4 else
    if l == 4 then 0x1f423fcee22f9be0 else if l == 5 then 0x659a4f06d21a1299 else
    if l == 6 then 0xeaf2de5e82448912 else if l == 7 then 0x902aae96b271006b else
    if l == 8 then 0x74523609127ad31a else if l == 9 then 0x0e8a46c1224f5a63 else
    if l == 10 then 0x81e2d7997211c1e8 else if l == 11 then 0xfb3aa75142244891 else
    if l == 12 then 0xb46ad37a8a3b6595 else if l == 13 then 0xceb2a3b2ba0eecec else
    if l == 14 then 0x41da32eaea507767 else 0x3b024222da65fe1e
  }

  function Row5(l: bv8): bv64 {
    if l == 0 then 0xa2722586f2d042ee else if l == 1 then 0xd8aa554ec2e5cb97 else
    if l == 2 then 0x57c2c41692bb501c else if l == 3 then 0x2d1ab4dea28ed965 else
    if l == 4 then 0x624ac0f56a91f461 else if l == 5 then 0x1892b03d5aa47d18 else
    if l == 6 then 0x97fa21650afae693 else if l == 7 then 0xed2251ad3acf6fea else
    if l == 8 then 0x095ac9329ac4bc9b else if l == 9 then 0x7382b9faaaf135e2 else
    if l == 10 then 0xfcea28a2faafae69 else if l == 11 then 0x8632586aca9a2710 else
    if l == 12 then 0xc9622c4102850a14 else if l == 13 then 0xb3ba5c8932b0836d else
    if l == 14 then 0x3cd2cdd162ee18e6 else 0x460abd1952db919f
  }

  function Row6(l: bv8): bv64 {
    if l == 0 then 0x256b24ca6b12f26d else if l == 1 then 0x5fb354025b277b14 else
    if l == 2 then 0xd0dbc55a0b79e09f else if l == 3 then 0xaa03b5923b4c69e6 else
    if l == 4 then 0xe553c1b9f35344e2 else if l == 5 then 0x9f8bb171c366cd9b else
    if l == 6 then 0x10e3202993385610 else if l == 7 then 0x6a3b50e1a30ddf69 else
    if l == 8 then 0x8e43c87e03060c18 else if l == 9 then 0xf49bb8b633338561 else
    if l == 10 then 0x7bf329ee636d1eea else if l == 11 then 0x012b592653589793 else
    if l == 12 then 0x4e7b2d0d9b47ba97 else if l == 13 then 0x34a35dc5ab7233ee else
    if l == 14 then 0xbbcbcc9dfb2ca865 else 0xc113bc55cb19211c
  }

  function Row7(l: bv8): bv64 {
    if l == 0 then 0x5863dbf1e3ac9dec else if l == 1 then 0x22bbab39d3991495 else
    if l == 2 then 0xadd33a6183c78f1e else if l == 3 then 0xd70b4aa9b3f20667 else
    if l == 4 then 0x985b3e827bed2b63 else if l == 5 then 0xe2834e4a4bd8a21a else
    if l == 6 then 0x6debdf121b863991 else if l == 7 then 0x1733afda2bb3b0e8 else
    if l == 8 then 0xf34b37458bb86399 else if l == 9 then 0x8993478dbb8deae0 else
    if l == 10 then 0x06fbd6d5ebd3716b else if l == 11 then 0x7c23a61ddbe6f812 else
    if l == 12 then 0x3373d23613f9d516 else if l == 13 then 0x49aba2fe23cc5c6f else
    if l == 14 then 0xc6c333a67392c7e4 else 0xbc1b436e43a74e9d
  }

  function Row8(l: bv8): bv64 {
    if l == 0 then 0x95ac9329ac4bc9b5 else if l == 1 then 0xef74e3e19c7e40cc else
    if l == 2 then 0x601c72b9cc20db47 else if l == 3 then 0x1ac40271fc15523e else
    if l == 4 then 0x5594765a340a7f3a else if l == 5 then 0x2f4c0692043ff643 else
    if l == 6 then 0xa02497ca54616dc8 else if l == 7 then 0xdafce7026454e4b1 else
    if l == 8 then 0x3e847f9dc45f37c0 else if l == 9 then 0x445c0f55f46abeb9 else
    if l == 10 then 0xcb349e0da4342532 else if l == 11 then 0xb1eceec59401ac4b else
    if l == 12 then 0xfebc9aee5c1e814f else if l == 13 then 0x8464ea266c2b0836 else
    if l == 14 then 0x0b0c7b7e3c7593bd else 0x71d40bb60c401ac4
  }

  function Row9(l: bv8): bv64 {
    if l == 0 then 0xe8a46c1224f5a634 else if l == 1 then 0x927c1cda14c02f4d else
    if l == 2 then 0x1d148d82449eb4c6 else if l == 3 then 0x67ccfd4a74ab3dbf else
    if l == 4 then 0x289c8961bcb410bb else if l == 5 then 0x5244f9a98c8199c2 else
    if l == 6 then 0xdd2c68f1dcdf0249 else if l == 7 then 0xa7f41839ecea8b30 else
    if l == 8 then 0x438c80a64ce15841 else if l == 9 then 0x3954f06e7cd4d138 else
    if l == 10 then 0xb63c61362c8a4ab3 else if l == 11 then 0xcce411fe1cbfc3ca else
    if l == 12 then 0x83b465d5d4a0eece else if l == 13 then 0xf96c151de49567b7 else
    if l == 14 then 0x76048445b4cbfc3c else 0x0cdcf48d84fe7545
  }

  function Row10(l: bv8): bv64 {
    if l == 0 then 0x6fbd6d5ebd3716b7 else if l == 1 then 0x15651d968d029fce else
    if l == 2 then 0x9a0d8ccedd5c0445 else if l == 3 then 0xe0d5fc06ed698d3c else
    if l == 4 then 0xaf85882d2576a038 else if l == 5 then 0xd55df8e515432941 else
    if l == 6 then 0x5a3569bd451db2ca else if l == 7 then 0x20ed197575283bb3 else
    if l == 8 then 0xc49581ead523e8c2 else if l == 9 then 0xbe4df122e51661bb else
    if l == 10 then 0x3125607ab548fa30 else if l == 11 then 0x4bfd10b2857d7349 else
    if l == 12 then 0x04ad64994d625e4d else if l == 13 then 0x7e7514517d57d734 else
    if l == 14 then 0xf11d85092d094cbf else 0x8bc5f5c11d3cc5c6
  }

  function Row11(l: bv8): bv64 {
    if l == 0 then 0x12b5926535897936 else if l == 1 then 0x686de2ad05bcf04f else
    if l == 2 then 0xe70573f555e26bc4 else if l == 3 then 0x9ddd033d65d7e2bd else
    if l == 4 then 0xd28d7716adc8cfb9 else if l == 5 then 0xa85507de9dfd46c0 else
    if l == 6 then 0x273d9686cda3dd4b else if l == 7 then 0x5de5e64efd965432 else
    if l == 8 then 0xb99d7ed15d9d8743 else if l == 9 then 0xc3450e196da80e3a else
    if l == 10 then 0x4c2d9f413df695b1 else if l == 11 then 0x36f5ef890dc31cc8 else
    if l == 12 then 0x79a59ba2c5dc31cc else if l == 13 then 0x037deb6af5e9b8b5 else
    if l == 14 then 0x8c157a32a5b7233e else 0xf6cd0afa9582aa47
  }

  function Row12(l: bv8): bv64 {
    if l == 0 then 0x4ad64994d625e4da else if l == 1 then 0x300e395ce6106da3 else
    if l == 2 then 0xbf66a804b64ef628 else if l == 3 then 0xc5bed8cc867b7f51 else
    if l == 4 then 0x8aeeace74e645255 else if l == 5 then 0xf036dc2f7e51db2c else
    if l == 6 then 0x7f5e4d772e0f40a7 else if l == 7 then 0x05863dbf1e3ac9de else
    if l == 8 then 0xe1fea520be311aaf else if l == 9 then 0x9b26d5e88e0493d6 else
    if l == 10 then 0x144e44b0de5a085d else if l == 11 then 0x6e963478ee6f8124 else
    if l == 12 then 0x21c640532670ac20 else if l == 13 then 0x5b1e309b16452559 else
    if l == 14 then 0xd476a1c3461bbed2 else 0xaeaed10b762e37ab
  }

  function Row13(l: bv8): bv64 {
    if l == 0 then 0x37deb6af5e9b8b5b else if l == 1 then 0x4d06c6676eae0222 else
    if l == 2 then 0xc26e573f3ef099a9 else if l == 3 then 0xb8b627f70ec510d0 else
    if l == 4 then 0xf7e653dcc6da3dd4 else if l == 5 then 0x8d3e2314f6efb4ad else
    if l == 6 then 0x0256b24ca6b12f26 else if l == 7 then 0x788ec2849684a65f else
    if l == 8 then 0x9cf65a1b368f752e else if l == 9 then 0xe62e2ad306bafc57 else
    if l == 10 then 0x6946bb8b56e467dc else if l == 11 then 0x139ecb4366d1eea5 else
    if l == 12 then 0x5ccebf68aecec3a1 else if l == 13 then 0x2616cfa09efb4ad8 else
    if l == 14 then 0xa97e5ef8cea5d153 else 0xd3a62e30fe90582a
  }

  function Row14(l: bv8): bv64 {
    if l == 0 then 0xb0c7b7e3c7593bd8 else if l == 1 then 0xca1fc72bf76cb2a1 else
    if l == 2 then 0x45775673a732292a else if l == 3 then 0x3faf26bb9707a053 else
    if l == 4 then 0x70ff52905f188d57 else if l == 5 then 0x0a2722586f2d042e else
    if l == 6 then 0x854fb3003f739fa5 else if l == 7 then 0xff97c3c80f4616dc else
    if l == 8 then 0x1bef5b57af4dc5ad else if l == 9 then 0x61372b9f9f784cd4 else
    if l == 10 then 0xee5fbac7cf26d75f else if l == 11 then 0x9487ca0fff135e26 else
    if l == 12 then 0xdbd7be24370c7322 else if l == 13 then 0xa10fceec0739fa5b else
    if l == 14 then 0x2e675fb4576761d0 else 0x54bf2f7c6752e8a9
  }

  function Row15(l: bv8): bv64 {
    if l == 0 then 0xcdcf48d84fe75459 else if l == 1 then 0xb71738107fd2dd20 else
    if l == 2 then 0x387fa9482f8c46ab else if l == 3 then 0x42a7d9801fb9cfd2 else
    if l == 4 then 0x0df7adabd7a6e2d6 else if l == 5 then 0x772fdd63e7936baf else
    if l == 6 then 0xf8474c3bb7cdf024 else if l == 7 then 0x829f3cf387f8795d else
    if l == 8 then 0x66e7a46c27f3aa2c else if l == 9 then 0x1c3fd4a417c62355 else
    if l == 10 then 0x935745fc4798b8de else if l == 11 then 0xe98f353477ad31a7 else
    if l == 12 then 0xa6df411fbfb21ca3 else if l == 13 then 0xdc0731d78f8795da else
    if l == 14 then 0x536fa08fdfd90e51 else 0x29b7d047efec8728
  }

  /** `crc64_tab`. */
  function Table(i: bv8): bv64 {
    var h, l := i >> 4, i & 15;
    if h == 0 then Row0(l) else
    if h == 1 then Row1(l) else
    if h == 2 then Row2(l) else
    if h == 3 then Row3(l) else
    if h == 4 then Row4(l) else
    if h == 5 then Row5(l) else
    if h == 6 then Row6(l) else
    if h == 7 then Row7(l) else
    if h == 8 then Row8(l) else
    if h == 9 then Row9(l) else
    if h == 10 then Row10(l) else
    if h == 11 then Row11(l) else
    if h == 12 then Row12(l) else
    if h == 13 then Row13(l) else
    if h == 14 then Row14(l) else
    Row15(l)
  }

  lemma Row0IsShift(l: bv8)
    requires l < 16
    ensures Row0(l) == Shift8((0x00 | l) as bv64)
  {}

  lemma Row1IsShift(l: bv8)
    requires l < 16
    ensures Row1(l) == Shift8((0x10 | l) as bv64)
  {}

  lemma Row2IsShift(l: bv8)
    requires l < 16
    ensures Row2(l) == Shift8((0x20 | l) as bv64)
  {}

  lemma Row3IsShift(l: bv8)
    requires l < 16
    ensures Row3(l) == Shift8((0x30 | l) as bv64)
  {}

  lemma Row4IsShift(l: bv8)
    requires l < 16
    ensures Row4(l) == Shift8((0x40 | l) as bv64)
  {}

  lemma Row5IsShift(l: bv8)
    requires l < 16
    ensures Row5(l) == Shift8((0x50 | l) as bv64)
  {}

  lemma Row6IsShift(l: bv8)
    requires l < 16
    ensures Row6(l) == Shift8((0x60 | l) as bv64)
  {}

  lemma Row7IsShift(l: bv8)
    requires l < 16
    ensures Row7(l) == Shift8((0x70 | l) as bv64)
  {}

  lemma Row8IsShift(l: bv8)
    requires l < 16
    ensures Row8(l) == Shift8((0x80 | l) as bv64)
  {}

  lemma Row9IsShift(l: bv8)
    requires l < 16
    ensures Row9(l) == Shift8((0x90 | l) as bv64)
  {}

  lemma Row10IsShift(l: bv8)
    requires l < 16
    ensures Row10(l) == Shift8((0xa0 | l) as bv64)
  {}

  lemma Row11IsShift(l: bv8)
    requires l < 16
    ensures Row11(l) == Shift8((0xb0 | l) as bv64)
  {}

  lemma Row12IsShift(l: bv8)
    requires l < 16
    ensures Row12(l) == Shift8((0xc0 | l) as bv64)
  {}

  lemma Row13IsShift(l: bv8)
    requires l < 16
    ensures Row13(l) == Shift8((0xd0 | l) as bv64)
  {}

  lemma Row14IsShift(l: bv8)
    requires l < 16
    ensures Row14(l) == Shift8((0xe0 | l) as bv64)
  {}

  lemma Row15IsShift(l: bv8)
    requires l < 16
    ensures Row15(l) == Shift8((0xf0 | l) as bv64)
  {}

  lemma Split(i: bv8, h: bv8, l: bv8)
    requires h == i >> 4 && l == i & 15
    ensures h < 16 && l < 16 && i == (h << 4) | l
  {}

  /** Every entry is the byte shifted through. */
  lemma TableIsShift(i: bv8)
    ensures Table(i) == Shift8(i as bv64)
  {
    var h, l := i >> 4, i & 15;
    Split(i, h, l);
    if h == 0 { Row0IsShift(l); }
    else if h == 1 { Row1IsShift(l); }
    else if h == 2 { Row2IsShift(l); }
    else if h == 3 { Row3IsShift(l); }
    else if h == 4 { Row4IsShift(l); }
    else if h == 5 { Row5IsShift(l); }
    else if h == 6 { Row6IsShift(l); }
    else if h == 7 { Row7IsShift(l); }
    else if h == 8 { Row8IsShift(l); }
    else if h == 9 { Row9IsShift(l); }
    else if h == 10 { Row10IsShift(l); }
    else if h == 11 { Row11IsShift(l); }
    else if h == 12 { Row12IsShift(l); }
    else if h == 13 { Row13IsShift(l); }
    else if h == 14 { Row14IsShift(l); }
    else { Row15IsShift(l); }
  }
}
