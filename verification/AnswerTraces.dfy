// The traces of the published answers, checked word by word.
module AnswerTraces {
  import opened HashTraces

  // The one block of "abc".
  const ABC := Trace(
    Quad(0x61626380, 0x00000000, 0x00000000, 0x00000000), Quad(0x00000000, 0x00000000, 0x00000000, 0x00000000),
    Quad(0x00000000, 0x00000000, 0x00000000, 0x00000000), Quad(0x00000000, 0x00000000, 0x00000000, 0x00000018),
    Quad(0x61626380, 0x000f0000, 0x7da86405, 0x600003c6), Quad(0x3e9d7b78, 0x0183fc00, 0x12dcbfdb, 0xe2e2c38e),
    Quad(0xc8215c1a, 0xb73679a2, 0xe5bc3909, 0x32663c5b), Quad(0x9d209d67, 0xec8726cb, 0x702138a4, 0xd3b7973b),
    Quad(0x93f5997f, 0x3b68ba73, 0xaff4ffc1, 0xf10a5c62), Quad(0x0a8b3996, 0x72af830a, 0x9409e33e, 0x24641522),
    Quad(0x9f47bf94, 0xf0a64f5a, 0x3e246a79, 0x27333ba3), Quad(0x0c4763f2, 0x840abf27, 0x7a290d5d, 0x065c43da),
    Quad(0xfb3e89cb, 0xcc7617db, 0xb9e66c34, 0xa9993667), Quad(0x84badedd, 0xc21462bc, 0x1487472c, 0xb20f7a99),
    Quad(0xef57b9cd, 0xebe6b238, 0x9fe3095e, 0x78bc8d4b), Quad(0xa43fcf15, 0x668b2ff8, 0xeeaba2cc, 0x12b1edeb),
    Eight(0x6a09e667, 0xbb67ae85, 0x3c6ef372, 0xa54ff53a, 0x510e527f, 0x9b05688c, 0x1f83d9ab, 0x5be0cd19),
    Eight(0xd550f666, 0xc8c347a7, 0x5a6ad9ad, 0x5d6aebcd, 0x24e00850, 0xf92939eb, 0x78ce7989, 0xfa2a4622),
    Eight(0x85a07b5f, 0xe5030380, 0x2b4209f5, 0x04409a6a, 0x0c657a79, 0x9b27a401, 0x714260ad, 0x43ada245),
    Eight(0xf71fc5a9, 0x4798a3f4, 0x8c87346b, 0x8e04ecb9, 0x816fd6e9, 0x436b23e8, 0x1cc92596, 0x32ca2d8c),
    Eight(0xb0fa238e, 0xc0645fde, 0xd932eb16, 0x87912990, 0x07590dcd, 0x0b92f20c, 0x745a48de, 0x1e578218),
    Eight(0xe1f20c33, 0xfe777bbf, 0xc2fbd9d1, 0x21da9a9b, 0xb0638179, 0xcc899961, 0x846ee454, 0x8034229c),
    Eight(0xc5d53d8d, 0xa7a3623f, 0xc2606d6d, 0x9dc68b63, 0xaa47c347, 0x49f5114a, 0xe1257970, 0x8ada8930),
    Eight(0x77d37528, 0xb62ec4bc, 0xcde8037d, 0x1c2c2838, 0xedffbff8, 0xc74c6516, 0x14383d8e, 0x2823ef91),
    Eight(0x73b33bf5, 0xea992a22, 0xa0060b30, 0x363482c9, 0xba591112, 0x0109ab3a, 0xade79437, 0x6112a3b7),
    Eight(0x65a0cfe4, 0xa9a7738c, 0xfe604df5, 0x98e12507, 0xf4b002d6, 0x085f3833, 0x59249dd3, 0x9cd9f5f6),
    Eight(0x79ea687a, 0x6dc57a8a, 0x34df1604, 0x41a65cb1, 0x1efbc0a0, 0xf0781bc8, 0xa507a53d, 0x0772a26b),
    Eight(0x9d4baf93, 0x17aa0dfe, 0xdf46652f, 0xd6670766, 0xfda24c2e, 0xdecd4715, 0x838b2711, 0x26352d63),
    Eight(0x4172328d, 0xa14c14b0, 0x72ab4b91, 0x26628815, 0xfecf0bc6, 0xd57b94a9, 0xb7755da1, 0xa80f11f0),
    Eight(0x886e7a22, 0x7a0508a1, 0xf11bfaa8, 0x05757ceb, 0x49231c1e, 0x52f1ccf7, 0x6e5c390c, 0xbd714038),
    Eight(0x38cc9913, 0x3ec45cdb, 0xf5702fdb, 0x101fd28f, 0x54cb266b, 0xe50e1b4f, 0x9f4787c3, 0x529e7d00),
    Eight(0xb6ae8fff, 0xffb70472, 0xc062d46f, 0xfcd1887b, 0xb21bad3d, 0x6d83bfc6, 0x7e44008e, 0x9b5e906c),
    Eight(0x506e3058, 0xd39a2165, 0x04d24d6c, 0xb85e2ce9, 0x5ef50f24, 0xfb121210, 0x948d25b6, 0x961f4894))

  // The key block with the inner pad.
  const INNER_KEY := Trace(
    Quad(0x46574545, 0x41523636, 0x36363636, 0x36363636), Quad(0x36363636, 0x36363636, 0x36363636, 0x36363636),
    Quad(0x36363636, 0x36363636, 0x36363636, 0x36363636), Quad(0x36363636, 0x36363636, 0x36363636, 0x36363636),
    Quad(0x43833ec9, 0x3c7fe3e3, 0x4c40fd11, 0x611679db), Quad(0xb4cd332a, 0x47622cca, 0x9370d346, 0xb4ce4ffc),
    Quad(0xcdcc8922, 0x57cb59db, 0x53fa23b5, 0x99edc451), Quad(0xba788731, 0x0b52b55d, 0x257c21ab, 0x654fe10a),
    Quad(0x69480e61, 0xb18c02d6, 0x11abc87d, 0xabe78033), Quad(0x74a538b1, 0x48ad06f6, 0xb023ea2b, 0xc038dfa4),
    Quad(0x71f55b61, 0xc5c3fd53, 0xc7bc94f3, 0xe5bd771e), Quad(0xf227b348, 0x2b5c15e5, 0xf5c8eaba, 0x2bedefad),
    Quad(0x532a9657, 0xcd7bceae, 0xa3869eef, 0x5f12c5aa), Quad(0xe0bd7ba2, 0x34dc6923, 0x551d3734, 0x67215f91),
    Quad(0xbd421a8f, 0xc7b20dbd, 0xf1c4418e, 0x71462ff2), Quad(0x9a136475, 0xa490a609, 0x603e71ae, 0x3273a05b),
    Eight(0x6a09e667, 0xbb67ae85, 0x3c6ef372, 0xa54ff53a, 0x510e527f, 0x9b05688c, 0x1f83d9ab, 0x5be0cd19),
    Eight(0x56424584, 0x00c85664, 0xfcb3a28f, 0x425fcd92, 0xed24e18d, 0x2c3aeb96, 0x4b9efee7, 0xdf1f27e7),
    Eight(0xf672d586, 0xe66d3a93, 0x75368fad, 0x97478af8, 0xbb5f5dfd, 0x95d641c0, 0xef693079, 0x5440dfdc),
    Eight(0xac7960f1, 0x3dcc5192, 0x74ea31c9, 0xf05dc760, 0xfb7b31c6, 0xb408a775, 0x839578fd, 0xb63195a3),
    Eight(0xec124e94, 0x88e81cae, 0x6aaa861a, 0x745662bd, 0x4864ae7f, 0x59d86e0f, 0x91c38765, 0x9ebabb06),
    Eight(0x50ee3b35, 0xb9577cd0, 0xd65ac339, 0x907fe34c, 0x177d4f07, 0x668ff121, 0xf694b15a, 0x159296e4),
    Eight(0x828128c6, 0x1d6cc71d, 0x3e81b1d4, 0x26cbd924, 0xc7f5e413, 0x1831c237, 0xf415ab4d, 0xb16f6440),
    Eight(0xc815fda7, 0xcb7230ed, 0xbffe638c, 0x7ffa10e8, 0x0d2b94fa, 0x5ed0814f, 0x6d993a7f, 0xa60d0406),
    Eight(0x6d25a10e, 0x5d0a1cee, 0xdeac15a2, 0x8af9ca33, 0xfe4fabf4, 0xb2d2f4c6, 0x802d951e, 0xf6afc888),
    Eight(0xd449657d, 0x82cdc08e, 0x85390edf, 0x27aef1e9, 0x25fbe976, 0x47212742, 0x79514d00, 0x4fbe6d94),
    Eight(0x27f3fed3, 0x18bb3a81, 0xa92dc7af, 0x91e97bc9, 0xe3c7d9ac, 0xa9f70d01, 0x7dc37cc3, 0xb9e61c8e),
    Eight(0x5a355d8b, 0xd6562f79, 0x40e66c01, 0x0cbccaf6, 0xe64c0fb7, 0x4096e1f7, 0xb5a3a974, 0x844bbb88),
    Eight(0x36aec724, 0x412ff58c, 0x63c7aac3, 0xeb2833d5, 0x29b4abd2, 0x1c1ef040, 0x85cfd4d3, 0xb5cce622),
    Eight(0x4e165276, 0xb8f4d80a, 0xe172ec9a, 0x8af8bae7, 0x1ecb45c9, 0x3ff003bc, 0x6b21b862, 0x82da72d3),
    Eight(0x93807cb8, 0x24847478, 0x6ae88bfc, 0x5783daf3, 0xbfe41a87, 0xa77fed7c, 0xe0b31628, 0xa08780a9),
    Eight(0x026b4a1e, 0x7196e3f5, 0x885b1161, 0x592c37e3, 0x248bb169, 0x77b421eb, 0x0830de68, 0xcd59347b),
    Eight(0x5173e8ad, 0x6035b1ac, 0x74771917, 0x6ee810bd, 0xabc144c8, 0xa19f4556, 0x1bd460e7, 0x4a764b57))

  // The salt with the block number 1.
  const INNER_1 := Trace(
    Quad(0x73616c74, 0x00000001, 0x80000000, 0x00000000), Quad(0x00000000, 0x00000000, 0x00000000, 0x00000000),
    Quad(0x00000000, 0x00000000, 0x00000000, 0x00000000), Quad(0x00000000, 0x00000000, 0x00000000, 0x00000240),
    Quad(0x7561ac74, 0x12682001, 0x63a9ec77, 0x14043171), Quad(0xcbadb7da, 0x9e93a98e, 0x6d24da0e, 0x1732e4e5),
    Quad(0x08c5d201, 0x9295d23d, 0x6746c57f, 0x1f2b9646), Quad(0x589d3888, 0x2710e0a3, 0xd305e544, 0x026df321),
    Quad(0x5e9f4226, 0x5b52d643, 0xb90a9156, 0x5fb4dbee), Quad(0xf1fb5743, 0x9033e1a8, 0xa2fa41df, 0x7a20f1c7),
    Quad(0xeb0e393c, 0xf5dfcaef, 0x0cc96f03, 0x82beec76), Quad(0xfdb8e3e7, 0x6037e4d8, 0xf9586b77, 0x94529fa8),
    Quad(0xc5b68c62, 0xa2277a94, 0xb5083ac1, 0xfbaa6c96), Quad(0x27952a40, 0x40e0e960, 0x2570554c, 0x945c7015),
    Quad(0xe1283992, 0xbd55f175, 0x6a864351, 0xd9c4e607), Quad(0x6e629229, 0x5fa1e4f5, 0x8d47b1c3, 0xc293d390),
    Eight(0xbb7dcf14, 0x1b9d6031, 0xb0e60c89, 0x143805f7, 0xfccf9747, 0x3ca4ade2, 0x3b583a92, 0xa6571870),
    Eight(0x2f9eec23, 0x73538f2c, 0xa9ea388c, 0x89e2ad76, 0x15ae4571, 0x9e084e74, 0x7b591972, 0x40d66c96),
    Eight(0xf67e27cf, 0x97f4f205, 0xa43f3d88, 0xb3063727, 0x48cd4774, 0x2a6d7803, 0xcdf23bb9, 0x3fbfed30),
    Eight(0x986fa804, 0x655e8378, 0xd7d22942, 0xf04de44a, 0x20f5c2ca, 0x4fae1095, 0xdbbeafbf, 0xb156de09),
    Eight(0x49c68a52, 0xbee992f0, 0xc1fe78b1, 0xb8e7fa32, 0x0ad1e69b, 0x3f44c760, 0x011c0473, 0xfb37fa1f),
    Eight(0xea77983b, 0xa94e6e11, 0xe2adc5d0, 0xdcf4674e, 0x27eb23eb, 0xfe18121f, 0x6af0f72c, 0xf1232109),
    Eight(0x005af13f, 0xe65b3810, 0xa163b38c, 0x4ccfa605, 0x70951832, 0x6c4e1e99, 0x3e40307c, 0x5a31e727),
    Eight(0x61e0942a, 0x4057a6b2, 0x8ea47a2f, 0xb1009686, 0xe719acb3, 0x03741701, 0x757dc644, 0x3b4a48d6),
    Eight(0x177d5b51, 0xfd74bf42, 0xad45ad88, 0x3fd2e9bd, 0x24517273, 0xbe699452, 0x905bd2f6, 0xf4734690),
    Eight(0xf1fb15b6, 0x73d7c735, 0x071dd59c, 0x01128329, 0xcc1def0e, 0x8fbd75c9, 0x8beedb89, 0x19350443),
    Eight(0x5f7daa30, 0xaa1d09dd, 0x7e47af7b, 0x45d81ef0, 0x92ce4bb6, 0xed21bd06, 0x8cfa84f8, 0xd56b3af3),
    Eight(0x84398829, 0x5dd969cd, 0xb338505f, 0xea79a161, 0x6b824f3d, 0x7d09e020, 0xafed9a2d, 0x00fec4bc),
    Eight(0x60358d15, 0xd886d159, 0x2eb5c8af, 0xec7976bf, 0x100f2d7d, 0x302fb738, 0x6a38ee8c, 0x7b56e9fd),
    Eight(0xfc3d1839, 0x18ce1e81, 0x3b4067bc, 0x80aea38b, 0xb9633812, 0x9e81153c, 0x62562bbd, 0x1de019c4),
    Eight(0x0162bd8a, 0x0a660a5b, 0x551b49ad, 0xd4c16d1e, 0xa0f3cf15, 0xda100fba, 0xdb1c0f31, 0xd283b1da),
    Eight(0xc72ef62e, 0x3058be27, 0x52268f0a, 0xb9886f1c, 0x38b1d31d, 0xb2b4fdba, 0x26a4043b, 0xa5e9463d),
    Eight(0xe07850ff, 0x9419a1d2, 0xcf00866a, 0x39000b92, 0x3d914072, 0x72e1e72d, 0x1d1ed54e, 0xe4f47ca0))

  // The key block with the outer pad.
  const OUTER_KEY := Trace(
    Quad(0x2c3d2f2f, 0x2b385c5c, 0x5c5c5c5c, 0x5c5c5c5c), Quad(0x5c5c5c5c, 0x5c5c5c5c, 0x5c5c5c5c, 0x5c5c5c5c),
    Quad(0x5c5c5c5c, 0x5c5c5c5c, 0x5c5c5c5c, 0x5c5c5c5c), Quad(0x5c5c5c5c, 0x5c5c5c5c, 0x5c5c5c5c, 0x5c5c5c5c),
    Quad(0xd872b03a, 0xd16b8f8e, 0x6b090877, 0x12dfc557), Quad(0x020c7783, 0x76e2b9a1, 0x120e3f36, 0xe4ec5dbd),
    Quad(0xaa6558d7, 0x10d9fef3, 0x1abbfeff, 0xc330d40b), Quad(0xf809fb16, 0x83431581, 0xa8447fb8, 0xb1c1dbba),
    Quad(0x7dba1216, 0x6458f717, 0xd6bc0007, 0x8bff5fa3), Quad(0xe7e01b8c, 0x44d6e3cb, 0x42995c31, 0xfc61fa4e),
    Quad(0x2fd2c74b, 0xacc58748, 0x1ce4f129, 0x6aabf4c8), Quad(0xf9a5f7fe, 0xc67a31c8, 0xff9a5951, 0xe84b318b),
    Quad(0xb1c33620, 0x958791cf, 0xc0e12a97, 0xc471abf6), Quad(0x85650e05, 0x63002d90, 0x4eaefcbe, 0xe3ff64ec),
    Quad(0x4c48af2d, 0x3a68d536, 0x8468ee7f, 0xff7c8e92), Quad(0xcca8d1d4, 0x16262e76, 0x1d389e72, 0xa257edec),
    Eight(0x6a09e667, 0xbb67ae85, 0x3c6ef372, 0xa54ff53a, 0x510e527f, 0x9b05688c, 0x1f83d9ab, 0x5be0cd19),
    Eight(0x0529e082, 0x6853a9b7, 0xe80fd4b4, 0x2845b77c, 0x2de29be4, 0x1ab6fad5, 0x530b426e, 0xc50511d1),
    Eight(0xa18fe634, 0xb092fa68, 0x73e83c04, 0x5dc809b1, 0x8068f5c7, 0x66d4fa10, 0xd3d03daa, 0xfb2986fc),
    Eight(0xa376e124, 0x079fdf4a, 0xe96ff580, 0xedd2f8b9, 0x525be69e, 0xa4d82f48, 0xc66c003e, 0x73b1dcd2),
    Eight(0x6b241cb2, 0xf9aacdc9, 0x96d219b8, 0xecb54f0c, 0x56d6568c, 0xba3d9142, 0x42143a51, 0x3c8c2152),
    Eight(0x3e1ce082, 0xf4e4b389, 0xbd67e088, 0x8273eeb1, 0x81206e97, 0x8e8962ba, 0x8e6cff55, 0x845e8865),
    Eight(0x4441ef32, 0x04bef4a6, 0xdcdae95b, 0x13deaf67, 0x8db2e181, 0x04778afa, 0x9df37cfd, 0xe1d8fd51),
    Eight(0xe3a091d2, 0xdc58040f, 0xeeb0bdbd, 0x5c817f96, 0x93d966b3, 0x3fdf4baf, 0x189cc4c6, 0x3c46b0f9),
    Eight(0x00430680, 0x6ceae961, 0x65cecd98, 0xae85cb05, 0xbb807695, 0x13372759, 0x415ef9f9, 0x681e41fe),
    Eight(0x7d8f9ff5, 0xc9b524e9, 0x6b697d4f, 0x4225da54, 0xb0fc8673, 0x5eea7651, 0x3b9249f4, 0x53d61420),
    Eight(0xd222bbbc, 0x0ecfe6e3, 0x338d83ea, 0x4406e38a, 0x7df273cb, 0xbd38338a, 0xba91a78b, 0x7dc7a17a),
    Eight(0x7dfecde2, 0x06e99751, 0xf2ad9857, 0x333e0bcb, 0xc004d7c8, 0x9b1535a2, 0xa9533888, 0x01347eb9),
    Eight(0x558ccf35, 0xe6bd9393, 0xc0e5c7e5, 0xd08206c1, 0x7f67f6c4, 0x44b7812f, 0x1473d599, 0x81769fc0),
    Eight(0x0196d88d, 0x10c6c423, 0x99b480e7, 0xf0423bdf, 0xc8236b5e, 0xf2ad57c4, 0x3c0d3a0e, 0xdc212fee),
    Eight(0xab5295b0, 0x1953db5b, 0xad052f24, 0x812213c8, 0xd00502c8, 0x623bd29e, 0x0eef2f9c, 0x805e006d),
    Eight(0xf866c434, 0xc58a33eb, 0x7c2c2a6f, 0x7f57af6c, 0xdfb81eb8, 0x22ae09d0, 0xb3d21980, 0x8a1ee6af),
    Eight(0x348806ba, 0x94fca55c, 0xb0f0476c, 0x73b7d16c, 0x7eab08a1, 0x934bef41, 0xf2a9c844, 0x7232bc8f))

  // The inner digest.
  const OUTER_1 := Trace(
    Quad(0x9bf62013, 0xafb70203, 0x7fe692f3, 0x4d381189), Quad(0x3a60d7b9, 0xaf86950f, 0x58770fe0, 0x8b4b9510),
    Quad(0x80000000, 0x00000000, 0x00000000, 0x00000000), Quad(0x00000000, 0x00000000, 0x00000000, 0x00000300),
    Quad(0x6e1f85bc, 0xff56c285, 0xd1b7f17c, 0x473c3d3a), Quad(0xf0f2ab34, 0x50f85383, 0x2e73b507, 0x2e113743),
    Quad(0x2b7fb09f, 0x8efa6803, 0x7592ec76, 0x6a14b36c), Quad(0x7ca0e443, 0xfe34f26b, 0x9d8831a6, 0xa73795ba),
    Quad(0xc08ff738, 0xccf81f33, 0xb43f6ea5, 0xad5c4f6d), Quad(0x62312fcb, 0x83c41395, 0x55fe6ad8, 0x515872c6),
    Quad(0x7d5c8a1a, 0xd3ae7075, 0xf08e0798, 0x72c41ddd), Quad(0xb80845d3, 0x3460b4b5, 0x9e2481d1, 0x05b4158f),
    Quad(0xdefdde89, 0xcc44343a, 0x58d0527c, 0xd37e6311), Quad(0xf993e28a, 0x4068c69f, 0x8314f255, 0xc5ba5a57),
    Quad(0x9eb1592d, 0x40e618cc, 0xff6b92b2, 0xdccd8883), Quad(0xf56ba215, 0xbd690c57, 0x2532270f, 0xcbb419e9),
    Eight(0x9e91ed21, 0x506453e1, 0xed5f3ade, 0x1907c6a6, 0xcfb95b20, 0x2e5157cd, 0x122da1ef, 0xce1389a8),
    Eight(0xf3d9e490, 0xc64d586a, 0x3b6c9e1b, 0x2ba5d4e0, 0x1f5925de, 0x4e91401b, 0xd36a5a60, 0x1f3c15e8),
    Eight(0x8c302575, 0xea90eeb0, 0x6808a9f5, 0x4384eb30, 0x08ef71d4, 0x16469dd2, 0x84d777fb, 0xfbf93fd2),
    Eight(0x2ceb0bcf, 0xfce8b84a, 0xeac46fb9, 0x65b7b973, 0xeca99525, 0xe404cf23, 0x9a095dc6, 0x38f637c2),
    Eight(0xa79a60ae, 0x175b76b8, 0xd81b4df3, 0x2fcfc98c, 0xd75d979d, 0xf2c9086d, 0x1d3f773c, 0x6f32be1c),
    Eight(0x2742e98d, 0x0fd213d2, 0xa18a7325, 0x22b1e3ed, 0x561f23fb, 0xab1020c1, 0xc1bf846e, 0xf6552a59),
    Eight(0x5cd51086, 0xe99d1272, 0xd672f607, 0x6c6711ef, 0x39e723da, 0x04922366, 0x80963c6b, 0x5936cd6e),
    Eight(0xdcf2a98c, 0xac1b6933, 0xac31ed0b, 0xa1d32a39, 0xbe74dcb0, 0xa4021f1d, 0x23beae50, 0xea1f6e28),
    Eight(0xe46eb8bf, 0xb3450985, 0x9b989320, 0x9fdb49f4, 0xf0ad8a23, 0xe1d76eb2, 0xa579179f, 0xe37e0c9d),
    Eight(0xb238d627, 0x67653450, 0x4f2a0551, 0x8866ece9, 0x17b632f5, 0x7ce5d3a4, 0xab759198, 0xeeef2a6d),
    Eight(0x2f33ad87, 0x2a492bb6, 0xe077051c, 0xeb090496, 0x0395be0b, 0xe286aa72, 0x9210b396, 0x4d5ca2a7),
    Eight(0x07340e27, 0xa430634b, 0x2852dde4, 0xbb659e9c, 0x5b1ac421, 0xf4c38c2f, 0x91216504, 0x12b7e75c),
    Eight(0xf2e16274, 0xca9259a5, 0x5902d023, 0x7d99c8ee, 0xa9964223, 0xb597034f, 0x9cef3c95, 0xb40171ee),
    Eight(0x1a8accd0, 0xa00e4f9e, 0xc7a6e63e, 0xe9ae36ba, 0x3df4df71, 0x6b72c35f, 0x7ea11834, 0xe22f9326),
    Eight(0x0d086618, 0x74967c03, 0x31c6f2df, 0x1eb110d6, 0x8e2e8bb0, 0xb8deac84, 0x1983a280, 0x3abf51ea),
    Eight(0x5f6a7075, 0xed1e2248, 0x6d2f2ce1, 0xd29d0649, 0x2dc9ec6d, 0x93b4500d, 0x1768c787, 0xa9ad8f13),
    Eight(0xb71a174d, 0x067eb4be, 0xfeb756e4, 0x0c3cef5f, 0x29882a01, 0x3f8cac98, 0xd45dfb68, 0xf3fa2314))

  // The same for block number 2.
  const INNER_2 := Trace(
    Quad(0x73616c74, 0x00000002, 0x80000000, 0x00000000), Quad(0x00000000, 0x00000000, 0x00000000, 0x00000000),
    Quad(0x00000000, 0x00000000, 0x00000000, 0x00000000), Quad(0x00000000, 0x00000000, 0x00000000, 0x00000240),
    Quad(0x7761ec74, 0x12682002, 0x4ba96d27, 0x1405d171), Quad(0x9b25a6fa, 0x5293a9f6, 0x6784d9df, 0x19333465),
    Quad(0x0a35de06, 0x4861d099, 0x68c71a9c, 0x6d733c42), Quad(0xc09b32b3, 0x613701b7, 0x9902f343, 0x084ad551),
    Quad(0xf61d0d04, 0xc7db9fcb, 0x75310084, 0x20bacb70), Quad(0xa93767f8, 0xacbd239a, 0xd306023c, 0xbfb8c0db),
    Quad(0xe3395bde, 0x295a8e8f, 0x56926465, 0xe0856b74), Quad(0x8e8d51c7, 0x75ec8ec9, 0x7201d6f3, 0x1693c6d4),
    Quad(0x59b927f8, 0x009090f7, 0x6355da70, 0x47380a32), Quad(0xddbb5492, 0x06579888, 0x3b44ab43, 0x501d5fdc),
    Quad(0x5d6b474f, 0xea184c39, 0x18302df9, 0xb89f619a), Quad(0x680ea323, 0xab1a4c83, 0xa3596c70, 0x9674b57e),
    Eight(0xbb7dcf14, 0x1b9d6031, 0xb0e60c89, 0x143805f7, 0xfccf9747, 0x3ca4ade2, 0x3b583a92, 0xa6571870),
    Eight(0xd5812c5e, 0x372b93ab, 0xa9ea388d, 0x89e2ad76, 0xe8365059, 0xa1e84ef3, 0x7b591973, 0x40d66c96),
    Eight(0x74539acb, 0xe869d4c1, 0x80a5c096, 0x2e1f40ba, 0x2660d4b8, 0x6770f8c5, 0x0030affd, 0x2f2f1959),
    Eight(0x59f68a33, 0x3365a8ee, 0x16ccded9, 0x9b250dd3, 0x5dd94e48, 0x8588f949, 0x82ae2e7c, 0xa3be13cb),
    Eight(0x9bb431f7, 0x3fddfe02, 0xa3e7c66b, 0x14baff53, 0xb58c3457, 0x1c8f9852, 0xd472a480, 0x3e2be1cc),
    Eight(0x346d8551, 0xe287a6bb, 0xf79e2ab6, 0x76ee7975, 0x05af7a78, 0x99ac7d44, 0x2b937ab5, 0x161d72b3),
    Eight(0x6321c6d2, 0xe48b1491, 0xc8dfcc1a, 0x4bab2081, 0xdd04a0a4, 0xd0515860, 0x636bc1e8, 0xfa826c5a),
    Eight(0xa8b2ff9c, 0x16372840, 0x023178f3, 0x9eeda35a, 0x5a73222b, 0x35a8d640, 0xd884c87b, 0xe0ccde13),
    Eight(0xd5893881, 0x08c8c99d, 0x90143c22, 0xe9eb7fec, 0xc777ba6f, 0x606c6c48, 0x80b01242, 0x696e21a4),
    Eight(0x9bb28443, 0x74e4e630, 0xa6ecfdc6, 0x37758732, 0x7b34761a, 0xd146dfbe, 0xbee79d9a, 0xfb49e95e),
    Eight(0x3509ce4a, 0xcfdf4501, 0xa614f91d, 0xd5b2b5db, 0xe237b4ef, 0xba84fd5e, 0xe5e9e2db, 0x4761e5e1),
    Eight(0x3e6e9fa3, 0xaef4de0d, 0x11a1e288, 0x2e1fd0a3, 0xfc1a24c6, 0xb2278a99, 0x56bb0f34, 0x8489c66d),
    Eight(0x2e6f0c07, 0x4a3d56fc, 0x71e5d518, 0xed6c4b94, 0xb3395e91, 0x57d6b9ca, 0xfe48ade9, 0x53aa6549),
    Eight(0x928d92fb, 0x8c433726, 0x10334310, 0xb0aed3a3, 0x19e115ff, 0xd4d13a01, 0x8d710225, 0x1c1b1e5b),
    Eight(0x05ceab62, 0xbd77ada8, 0x4ee6af9f, 0x50090b64, 0x9f45ec8f, 0xc12fb6e6, 0x64038b78, 0x2b80ad3d),
    Eight(0xe9d6a1af, 0xef802a11, 0xb246da7d, 0xdab09494, 0xc95d81c1, 0x761b6ae5, 0x12de38b1, 0x3c04e394),
    Eight(0xcda0daac, 0x1fbbf20a, 0x9ea8b098, 0xb29d80ab, 0x2047a2ae, 0x52f2c057, 0xc562905e, 0xf3fb1189))

  const OUTER_2 := Trace(
    Quad(0x891ea9c0, 0x3b59523b, 0x4f8ebd21, 0xc6d586a2), Quad(0x1d1739f5, 0x8f976e39, 0x00bacaf0, 0x9a5229f9),
    Quad(0x80000000, 0x00000000, 0x00000000, 0x00000000), Quad(0x00000000, 0x00000000, 0x00000000, 0x00000300),
    Quad(0xaeb1fff5, 0x215feb78, 0x4cbe367e, 0xf7965828), Quad(0xb45e9b38, 0xc96e1bcd, 0x0991b0ea, 0x28b1500a),
    Quad(0x8fca0d0e, 0xceccb398, 0x3e9bbcc7, 0x83eb68cb), Quad(0x7362fa3e, 0xe2edfc3c, 0x4bb57fd3, 0x52e19e0f),
    Quad(0x9c37206e, 0xd55fcd16, 0x1ddf09ee, 0x4b437da3), Quad(0x0166bf1f, 0x9fb64ece, 0x2a254ab6, 0x4327587f),
    Quad(0x75d36fcf, 0x9a6bccee, 0xc12ab624, 0xf12332e0), Quad(0x3b9757ed, 0xfc388d53, 0x435cdc03, 0x2696cad6),
    Quad(0xf078ffbd, 0x70becdbe, 0xffadd079, 0xd8398a4f), Quad(0x6d257a72, 0x1328ad94, 0x8425bd6a, 0xc2beb068),
    Quad(0x8d0d6224, 0x2451a7ed, 0xca57f163, 0x4e495ad4), Quad(0xf09aaedc, 0x406f7a67, 0x22cfcaca, 0x601412f4),
    Eight(0x9e91ed21, 0x506453e1, 0xed5f3ade, 0x1907c6a6, 0xcfb95b20, 0x2e5157cd, 0x122da1ef, 0xce1389a8),
    Eight(0xbaf7e04e, 0xa020b51f, 0x25b52dc1, 0x18ce5e8d, 0x76c43d20, 0xe01c3930, 0x6f2ea34c, 0x0c649f95),
    Eight(0x26cfce50, 0x4e744f8c, 0xa7338553, 0x27cb6a2f, 0xfb930e17, 0x395c8e08, 0x74e17ab6, 0x2c9b0e26),
    Eight(0x7cd464dd, 0x1dc14f8f, 0x3eef6ffb, 0x812cc1c3, 0xc78061c4, 0x37680eca, 0x8265ee7c, 0x3e74d731),
    Eight(0xddf3e370, 0x1116a266, 0xb7aae668, 0x0961d1cb, 0x7ba8ad7b, 0x3bc06719, 0x0d91fd3b, 0x257b9948),
    Eight(0x30b3896c, 0xdb4f5fe4, 0xf244a080, 0x085c98c8, 0x3fd0352e, 0xe9fca7be, 0xda649f91, 0x9893b3ff),
    Eight(0xd8ed8a1f, 0xf31f2545, 0x0cf70e8f, 0xd5a2ba1b, 0x096c9f18, 0x4e3b62f2, 0x7e39a6de, 0x624ef1fa),
    Eight(0x89bfba83, 0x70083be5, 0xbdd4f1bf, 0x27e86fb2, 0x891ead73, 0x73ec492c, 0x8108e507, 0x139e4136),
    Eight(0x0e564fbc, 0xb4616da6, 0xc045336f, 0xc027da51, 0x92152c25, 0xe49efd55, 0x7ffbb9c3, 0x65d9e0e1),
    Eight(0xbb5bac88, 0x7a449189, 0xd559a4f7, 0xdbc34f89, 0x2dd3a30c, 0x9ad792cd, 0xefdb5e23, 0xf05aa8c8),
    Eight(0xa6dcdaf5, 0xf4270433, 0x01786477, 0xfa05e3f3, 0x318c7326, 0xb099e1ee, 0xe5fb00aa, 0xb64e7be1),
    Eight(0x8bdd03e3, 0x7b3bf9bf, 0x0c4e2a59, 0x7004e490, 0xbdd71be3, 0x21a3864b, 0xeeb0d15c, 0xf81cad4c),
    Eight(0xa37c20e1, 0xf3322cc4, 0x04abaa6f, 0x173b833d, 0x85c578eb, 0x29b72f40, 0x4393a3ba, 0xf1fcab93),
    Eight(0x95fe889d, 0x11e6188d, 0xba3abf5c, 0xd419ae7d, 0x90ccadcd, 0x144989ea, 0x6b5d00e4, 0xa8c97381),
    Eight(0xa13d79c8, 0x758c837a, 0xdc7841f8, 0x21bc6699, 0x0cc25901, 0x17974aa1, 0xf77887f4, 0x882600f5),
    Eight(0x119e98f5, 0x5d1a3bdb, 0xc628950a, 0xcfe57dba, 0x8240c9d0, 0x4ff102ad, 0xf119918e, 0xe8782d3e),
    Eight(0xab38afab, 0xa1156264, 0xabb729d5, 0x8470288b, 0xacb85d25, 0x8391b408, 0xf6e37e52, 0x058e0ddb))

  lemma AbcChecked()
    ensures Checked(ABC)
  {
  }

  lemma InnerKeyChecked()
    ensures Checked(INNER_KEY)
  {
  }

  lemma Inner1Checked()
    ensures Checked(INNER_1)
  {
  }

  lemma OuterKeyChecked()
    ensures Checked(OUTER_KEY)
  {
  }

  lemma Outer1Checked()
    ensures Checked(OUTER_1)
  {
  }

  lemma Inner2Checked()
    ensures Checked(INNER_2)
  {
  }

  lemma Outer2Checked()
    ensures Checked(OUTER_2)
  {
  }
}
