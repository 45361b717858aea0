/** The settings, their rules and their shipped defaults (src/config.ts). */
module ConfigTable {
  datatype ConfigKey =
    | RECENCY_FLOOR | RECENCY_FLOOR_DURABLE | RECENCY_FLOOR_VOLATILE
    | MMR_LAMBDA | DUPLICATE_BLOCK_THRESHOLD | DUPLICATE_FLAG_THRESHOLD
    | RECALL_WIDEN_THRESHOLD | KEYWORD_CANDIDATE_LIMIT | SUBSTRING_MATCH_WEIGHT
    | RERANK_MODE | GRAPH_MAX_HOPS | GRAPH_HOP_DECAY
    | DEFAULT_HOPS | RECALL_OUTPUT_BUDGET | SNIPPET_MAX_CHARS
    | FULL_MATCH_MAX_CHARS | RECALL_FULL_MATCHES | STRONG_MATCH_RATIO
    | COMPRESSION_IMPORTANCE_THRESHOLD | COMPRESSION_MIN_RECALL | COMPRESSION_MIN_AGE_MS
    | SOURCE_WEIGHT_MIRROR | SOURCE_WEIGHT_TRANSCRIPT | SOURCE_WEIGHT_SYSTEM
    | MIRROR_MAX_SHARE | NOTICE_COLLAPSE | QUARANTINE_THRESHOLD
    | QUARANTINE_WRITE_BURST | QUARANTINE_STATUS_BURST | TAG_BOOST_STEP
    | TAG_BOOST_MAX | CONTRADICTION_IMPORTANCE_STEP | STALE_AFTER_DAYS_VOLATILE
    | STALE_AFTER_DAYS_STATE | STALE_PENALTY | LLM_MODEL
    | EMBEDDING_MODEL | INSIGHT_LLM_MODEL | WHEN_LLM_MODEL
    | TEAM_DEFAULT_WORKSPACE | TEAM_INSIGHTS | TEAM_MODE
    | TIMEZONE | PUSH_CONTACT | RECALL_LOG
    | VERSION_KEEP | TRASH_RETENTION_DAYS | STANDING_THRESHOLD
    | STANDING_MAX | EMBEDDING_DIM | DECISION_REVIEW_DEFAULT_DAYS
    | CALIBRATION_MIN_N | CALIBRATION_MIN_BUCKET_N | CALIBRATION_MIN_TOPIC_N

  /** A stored or patched value.  Infinite stands for a number literal beyond the finite range. */
  datatype Json = Null | Bool(flag: bool) | Num(number: real) | Infinite | Str(text: string) | Compound(id: nat)

  datatype Rule = Number(min: real, max: real, integer: bool) | Text | Fixed(value: string)

  function RuleOf(key: ConfigKey): Rule {
    match key
    case RECENCY_FLOOR => Number(0.0, 1.0, false)
    case RECENCY_FLOOR_DURABLE => Number(0.0, 1.0, false)
    case RECENCY_FLOOR_VOLATILE => Number(0.0, 1.0, false)
    case MMR_LAMBDA => Number(0.0, 1.0, false)
    case DUPLICATE_BLOCK_THRESHOLD => Number(0.0, 1.0, false)
    case DUPLICATE_FLAG_THRESHOLD => Number(0.0, 1.0, false)
    case RECALL_WIDEN_THRESHOLD => Number(0.0, 1.0, false)
    case KEYWORD_CANDIDATE_LIMIT => Number(50.0, 2000.0, true)
    case SUBSTRING_MATCH_WEIGHT => Number(0.0, 1.0, false)
    case RERANK_MODE => Text
    case GRAPH_MAX_HOPS => Number(0.0, 3.0, true)
    case GRAPH_HOP_DECAY => Number(0.0, 1.0, false)
    case DEFAULT_HOPS => Number(0.0, 3.0, true)
    case RECALL_OUTPUT_BUDGET => Number(1000.0, 100000.0, true)
    case SNIPPET_MAX_CHARS => Number(100.0, 4000.0, true)
    case FULL_MATCH_MAX_CHARS => Number(500.0, 20000.0, true)
    case RECALL_FULL_MATCHES => Number(0.0, 10.0, true)
    case STRONG_MATCH_RATIO => Number(0.0, 1.0, false)
    case COMPRESSION_IMPORTANCE_THRESHOLD => Number(1.0, 5.0, true)
    case COMPRESSION_MIN_RECALL => Number(0.0, 100.0, true)
    case COMPRESSION_MIN_AGE_MS => Number(0.0, 315360000000.0, true)
    case SOURCE_WEIGHT_MIRROR => Number(0.5, 1.0, false)
    case SOURCE_WEIGHT_TRANSCRIPT => Number(0.5, 1.0, false)
    case SOURCE_WEIGHT_SYSTEM => Number(0.5, 1.0, false)
    case MIRROR_MAX_SHARE => Number(0.1, 1.0, false)
    case NOTICE_COLLAPSE => Text
    case QUARANTINE_THRESHOLD => Number(0.5, 100.0, false)
    case QUARANTINE_WRITE_BURST => Number(5.0, 1000.0, true)
    case QUARANTINE_STATUS_BURST => Number(3.0, 1000.0, true)
    case TAG_BOOST_STEP => Number(0.0, 1.0, false)
    case TAG_BOOST_MAX => Number(1.0, 5.0, false)
    case CONTRADICTION_IMPORTANCE_STEP => Number(0.0, 5.0, false)
    case STALE_AFTER_DAYS_VOLATILE => Number(1.0, 365.0, true)
    case STALE_AFTER_DAYS_STATE => Number(7.0, 730.0, true)
    case STALE_PENALTY => Number(0.5, 1.0, false)
    case LLM_MODEL => Text
    case EMBEDDING_MODEL => Fixed("@cf/google/embeddinggemma-300m")
    case INSIGHT_LLM_MODEL => Text
    case WHEN_LLM_MODEL => Text
    case TEAM_DEFAULT_WORKSPACE => Text
    case TEAM_INSIGHTS => Text
    case TEAM_MODE => Text
    case TIMEZONE => Text
    case PUSH_CONTACT => Text
    case RECALL_LOG => Text
    case VERSION_KEEP => Number(5.0, 500.0, true)
    case TRASH_RETENTION_DAYS => Number(1.0, 365.0, true)
    case STANDING_THRESHOLD => Number(0.5, 0.95, false)
    case STANDING_MAX => Number(1.0, 100.0, true)
    case EMBEDDING_DIM => Number(1.0, 4096.0, true)
    case DECISION_REVIEW_DEFAULT_DAYS => Number(7.0, 730.0, true)
    case CALIBRATION_MIN_N => Number(5.0, 100.0, true)
    case CALIBRATION_MIN_BUCKET_N => Number(3.0, 50.0, true)
    case CALIBRATION_MIN_TOPIC_N => Number(3.0, 50.0, true)
  }

  function Default(key: ConfigKey): Json {
    match key
    case RECENCY_FLOOR => Num(0.6)
    case RECENCY_FLOOR_DURABLE => Num(0.9)
    case RECENCY_FLOOR_VOLATILE => Num(0.15)
    case MMR_LAMBDA => Num(0.7)
    case DUPLICATE_BLOCK_THRESHOLD => Num(0.98)
    case DUPLICATE_FLAG_THRESHOLD => Num(0.80)
    case RECALL_WIDEN_THRESHOLD => Num(0.60)
    case KEYWORD_CANDIDATE_LIMIT => Num(128.0)
    case SUBSTRING_MATCH_WEIGHT => Num(0.25)
    case RERANK_MODE => Str("auto")
    case GRAPH_MAX_HOPS => Num(3.0)
    case GRAPH_HOP_DECAY => Num(0.6)
    case DEFAULT_HOPS => Num(0.0)
    case RECALL_OUTPUT_BUDGET => Num(12000.0)
    case SNIPPET_MAX_CHARS => Num(400.0)
    case FULL_MATCH_MAX_CHARS => Num(4000.0)
    case RECALL_FULL_MATCHES => Num(2.0)
    case STRONG_MATCH_RATIO => Num(0.75)
    case COMPRESSION_IMPORTANCE_THRESHOLD => Num(4.0)
    case COMPRESSION_MIN_RECALL => Num(2.0)
    case COMPRESSION_MIN_AGE_MS => Num(5184000000.0)
    case SOURCE_WEIGHT_MIRROR => Num(1.0)
    case SOURCE_WEIGHT_TRANSCRIPT => Num(1.0)
    case SOURCE_WEIGHT_SYSTEM => Num(1.0)
    case MIRROR_MAX_SHARE => Num(1.0)
    case NOTICE_COLLAPSE => Str("off")
    case QUARANTINE_THRESHOLD => Num(1.0)
    case QUARANTINE_WRITE_BURST => Num(40.0)
    case QUARANTINE_STATUS_BURST => Num(10.0)
    case TAG_BOOST_STEP => Num(0.15)
    case TAG_BOOST_MAX => Num(1.5)
    case CONTRADICTION_IMPORTANCE_STEP => Num(1.0)
    case STALE_AFTER_DAYS_VOLATILE => Num(14.0)
    case STALE_AFTER_DAYS_STATE => Num(90.0)
    case STALE_PENALTY => Num(1.0)
    case LLM_MODEL => Str("@cf/meta/llama-4-scout-17b-16e-instruct")
    case EMBEDDING_MODEL => Str("@cf/google/embeddinggemma-300m")
    case INSIGHT_LLM_MODEL => Str("@cf/openai/gpt-oss-120b")
    case WHEN_LLM_MODEL => Str("@cf/openai/gpt-oss-120b")
    case TEAM_DEFAULT_WORKSPACE => Str("personal")
    case TEAM_INSIGHTS => Str("off")
    case TEAM_MODE => Str("auto")
    case TIMEZONE => Str("UTC")
    case PUSH_CONTACT => Str("")
    case RECALL_LOG => Str("off")
    case VERSION_KEEP => Num(20.0)
    case TRASH_RETENTION_DAYS => Num(14.0)
    case STANDING_THRESHOLD => Num(0.67)
    case STANDING_MAX => Num(50.0)
    case EMBEDDING_DIM => Num(128.0)
    case DECISION_REVIEW_DEFAULT_DAYS => Num(90.0)
    case CALIBRATION_MIN_N => Num(10.0)
    case CALIBRATION_MIN_BUCKET_N => Num(5.0)
    case CALIBRATION_MIN_TOPIC_N => Num(5.0)
  }
}
